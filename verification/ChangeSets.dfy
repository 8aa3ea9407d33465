/** Normalized invalidation (src/change_set.rs). */
module ChangeSets {
  import opened Numbers
  import opened Outcomes
  import opened Ordering

  datatype Span = Span(start: I64, end: I64) {
    predicate IntersectsOrTouches(other: Span) {
      start <= other.end && other.start <= end
    }
  }

  /** Never empty, never reversed. */
  type AudioRange = s: Span | s.start < s.end witness Span(0, 1)

  function UnionRanges(a: AudioRange, b: AudioRange): Option<AudioRange> {
    if a.IntersectsOrTouches(b)
    then Some(Span(if a.start <= b.start then a.start else b.start, if a.end >= b.end then a.end else b.end))
    else None
  }

  predicate InRange(r: AudioRange, frame: int) {
    r.start <= frame < r.end
  }

  predicate InSome(ranges: seq<AudioRange>, frame: int) {
    exists i :: 0 <= i < |ranges| && InRange(ranges[i], frame)
  }

  /** Ascending with at least one frame between neighbours. */
  predicate Separated(ranges: seq<AudioRange>) {
    forall i, j :: 0 <= i < j < |ranges| ==> ranges[i].end < ranges[j].start
  }

  /** Two ranges have a union exactly when no frame lies strictly between them; it covers just their frames. */
  lemma UnionOfRanges(a: AudioRange, b: AudioRange, frame: int)
    ensures UnionRanges(a, b).None? <==> a.end < b.start || b.end < a.start
    ensures UnionRanges(a, b).Some? ==>
      (InRange(UnionRanges(a, b).value, frame) <==> InRange(a, frame) || InRange(b, frame))
  {}

  // ----- the canonical list

  predicate RangeLte(a: AudioRange, b: AudioRange) {
    a.start < b.start || (a.start == b.start && a.end <= b.end)
  }

  predicate Sorted(ranges: seq<AudioRange>) {
    forall i, j :: 0 <= i < j < |ranges| ==> RangeLte(ranges[i], ranges[j])
  }

  /** Takes the next range in order: widens the last range or opens a new one. */
  function Absorb(normalized: seq<AudioRange>, range: AudioRange): seq<AudioRange> {
    if normalized == [] then [range]
    else
      match UnionRanges(normalized[|normalized| - 1], range)
      case Some(merged) => normalized[|normalized| - 1 := merged]
      case None => normalized + [range]
  }

  function AbsorbAll(ranges: seq<AudioRange>): seq<AudioRange> {
    if ranges == [] then [] else Absorb(AbsorbAll(ranges[..|ranges| - 1]), ranges[|ranges| - 1])
  }

  lemma RangeOrder()
    ensures TotalOrder(RangeLte)
  {}

  ghost function NormalizeRanges(ranges: seq<AudioRange>): seq<AudioRange> {
    RangeOrder();
    AbsorbAll(Ascending(RangeLte, Elements(ranges)))
  }

  lemma AbsorbSeparated(normalized: seq<AudioRange>, range: AudioRange)
    requires Separated(normalized)
    requires normalized != [] ==> normalized[|normalized| - 1].start <= range.start
    ensures Separated(Absorb(normalized, range))
    ensures Absorb(normalized, range) != []
    ensures Absorb(normalized, range)[|Absorb(normalized, range)| - 1].start <= range.start
  {}

  lemma AbsorbFrames(normalized: seq<AudioRange>, range: AudioRange, frame: int)
    ensures InSome(Absorb(normalized, range), frame) <==> InSome(normalized, frame) || InRange(range, frame)
  {
    hide UnionRanges;
    var after := Absorb(normalized, range);
    if normalized == [] {
      assert after[0] == range;
    } else {
      var last := |normalized| - 1;
      UnionOfRanges(normalized[last], range, frame);
      if InSome(normalized, frame) {
        var i :| 0 <= i < |normalized| && InRange(normalized[i], frame);
        assert InRange(after[i], frame);
      }
      assert InRange(range, frame) ==> InRange(after[|after| - 1], frame);
      if InSome(after, frame) {
        var i :| 0 <= i < |after| && InRange(after[i], frame);
        assert i < last ==> after[i] == normalized[i];
        assert i == last ==> InRange(normalized[last], frame) || InRange(range, frame);
      }
    }
  }

  lemma {:induction false} AbsorbAllExact(ranges: seq<AudioRange>, frame: int)
    requires Sorted(ranges)
    ensures Separated(AbsorbAll(ranges))
    ensures InSome(AbsorbAll(ranges), frame) <==> InSome(ranges, frame)
    ensures ranges != [] ==>
      AbsorbAll(ranges) != [] && AbsorbAll(ranges)[|AbsorbAll(ranges)| - 1].start <= ranges[|ranges| - 1].start
  {
    hide Absorb;
    if ranges != [] {
      var front, last := ranges[..|ranges| - 1], ranges[|ranges| - 1];
      AbsorbAllExact(front, frame);
      if front == [] { assert AbsorbAll(front) == []; }
      AbsorbSeparated(AbsorbAll(front), last);
      AbsorbFrames(AbsorbAll(front), last, frame);
      if InSome(ranges, frame) {
        var i :| 0 <= i < |ranges| && InRange(ranges[i], frame);
        if i < |front| { assert InRange(front[i], frame); }
      }
      if InSome(front, frame) {
        var i :| 0 <= i < |front| && InRange(front[i], frame);
        assert InRange(ranges[i], frame);
      }
    }
  }

  lemma InSomeByMembers(a: seq<AudioRange>, b: seq<AudioRange>, frame: int)
    requires forall r :: r in a ==> r in b
    ensures InSome(a, frame) ==> InSome(b, frame)
  {
    if InSome(a, frame) {
      var i :| 0 <= i < |a| && InRange(a[i], frame);
      assert a[i] in b;
      var j :| 0 <= j < |b| && b[j] == a[i];
    }
  }

  /** Normalization yields separated ranges over exactly the given frames. */
  lemma NormalizeRangesExact(ranges: seq<AudioRange>, frame: int)
    ensures Separated(NormalizeRanges(ranges))
    ensures InSome(NormalizeRanges(ranges), frame) <==> InSome(ranges, frame)
  {
    RangeOrder();
    var sorted := Ascending(RangeLte, Elements(ranges));
    assert Sorted(sorted);
    AbsorbAllExact(sorted, frame);
    InSomeByMembers(sorted, ranges, frame);
    InSomeByMembers(ranges, sorted, frame);
  }

  ghost predicate SameFrames(a: seq<AudioRange>, b: seq<AudioRange>) {
    forall frame :: InSome(a, frame) <==> InSome(b, frame)
  }

  lemma FirstFrames(a: seq<AudioRange>, frame: int)
    requires Separated(a) && a != []
    ensures InSome(a, frame) ==> a[0].start <= frame
    ensures InSome(a, frame) && !InRange(a[0], frame) ==> a[0].end < frame
    ensures InSome(a[1..], frame) <==> InSome(a, frame) && frame > a[0].end
    ensures Separated(a[1..])
  {
    if InSome(a, frame) {
      var i :| 0 <= i < |a| && InRange(a[i], frame);
      if i > 0 {
        assert a[0].end < a[i].start;
        assert InRange(a[1..][i - 1], frame);
      }
    }
    if InSome(a[1..], frame) {
      var i :| 0 <= i < |a| - 1 && InRange(a[1..][i], frame);
      assert InRange(a[i + 1], frame) && a[0].end < a[i + 1].start;
    }
  }

  lemma StartsTouched(a: seq<AudioRange>)
    requires a != []
    ensures InSome(a, a[0].start)
  {
    assert InRange(a[0], a[0].start);
  }

  /** A separated list is determined by its frames. */
  lemma {:induction false} SeparatedUnique(a: seq<AudioRange>, b: seq<AudioRange>)
    requires Separated(a) && Separated(b) && SameFrames(a, b)
    ensures a == b
  {
    if a == [] {
      if b != [] { StartsTouched(b); }
    } else {
      StartsTouched(a);
      assert InSome(b, a[0].start);
      FirstRangesAgree(a, b);
      forall frame ensures InSome(a[1..], frame) <==> InSome(b[1..], frame) {
        FirstFrames(a, frame);
        FirstFrames(b, frame);
      }
      FirstFrames(a, 0);
      FirstFrames(b, 0);
      SeparatedUnique(a[1..], b[1..]);
      assert a == [a[0]] + a[1..] && b == [b[0]] + b[1..];
    }
  }

  lemma FirstRangesAgree(a: seq<AudioRange>, b: seq<AudioRange>)
    requires Separated(a) && Separated(b) && SameFrames(a, b) && a != [] && b != []
    ensures a[0] == b[0]
  {
    FirstStarts(a, b);
    FirstStarts(b, a);
    FirstEnds(a, b);
    FirstEnds(b, a);
  }

  lemma FirstStarts(a: seq<AudioRange>, b: seq<AudioRange>)
    requires Separated(a) && Separated(b) && SameFrames(a, b) && a != [] && b != []
    ensures b[0].start <= a[0].start
  {
    assert InRange(a[0], a[0].start);
    assert InSome(a, a[0].start);
    FirstFrames(b, a[0].start);
  }

  lemma FirstEnds(a: seq<AudioRange>, b: seq<AudioRange>)
    requires Separated(a) && Separated(b) && SameFrames(a, b) && a != [] && b != []
    requires a[0].start == b[0].start
    ensures a[0].end <= b[0].end
  {
    if a[0].end > b[0].end {
      var gap := b[0].end;
      assert InRange(a[0], gap);
      assert InSome(a, gap);
      FirstFrames(b, gap);
    }
  }

  lemma NormalizeOfSeparated(ranges: seq<AudioRange>)
    requires Separated(ranges)
    ensures NormalizeRanges(ranges) == ranges
  {
    hide NormalizeRanges;
    NormalizeRangesExact(ranges, 0);
    forall frame ensures InSome(NormalizeRanges(ranges), frame) <==> InSome(ranges, frame) {
      NormalizeRangesExact(ranges, frame);
    }
    SeparatedUnique(NormalizeRanges(ranges), ranges);
  }

  // ----- the loops

  method InsertRange(sorted: seq<AudioRange>, range: AudioRange) returns (r: seq<AudioRange>)
    requires Sorted(sorted)
    ensures Sorted(r) && multiset(r) == multiset(sorted) + multiset{range}
  {
    var k := 0;
    while k < |sorted| && RangeLte(sorted[k], range)
      invariant 0 <= k <= |sorted|
      invariant forall j :: 0 <= j < k ==> RangeLte(sorted[j], range)
    {
      k := k + 1;
    }
    assert sorted == sorted[..k] + sorted[k..];
    r := sorted[..k] + [range] + sorted[k..];
    InsertSorts(sorted, k, range);
  }

  lemma InsertSorts(sorted: seq<AudioRange>, k: nat, range: AudioRange)
    requires Sorted(sorted) && k <= |sorted|
    requires forall j :: 0 <= j < k ==> RangeLte(sorted[j], range)
    requires k < |sorted| ==> RangeLte(range, sorted[k])
    ensures Sorted(sorted[..k] + [range] + sorted[k..])
  {
    var r := sorted[..k] + [range] + sorted[k..];
    forall i, j | 0 <= i < j < |r| ensures RangeLte(r[i], r[j]) {
      if j > k && i <= k {
        assert RangeLte(sorted[k], sorted[j - 1]) || j - 1 == k;
        assert RangeLte(range, sorted[j - 1]);
      }
    }
  }

  /** Sorts without removing repetitions. */
  method SortRanges(input: seq<AudioRange>) returns (r: seq<AudioRange>)
    ensures Sorted(r) && multiset(r) == multiset(input)
  {
    r := [];
    for i := 0 to |input|
      invariant Sorted(r) && multiset(r) == multiset(input[..i])
    {
      assert input[..i + 1] == input[..i] + [input[i]];
      r := InsertRange(r, input[i]);
    }
    assert input[..|input|] == input;
  }

  /** Sorts, then merges what touches in one pass; the result is the canonical list of the frames. */
  method ComputeNormalizedRanges(input: seq<AudioRange>) returns (normalized: seq<AudioRange>)
    ensures normalized == NormalizeRanges(input)
  {
    hide NormalizeRanges, Sorted, UnionRanges;
    var sorted := SortRanges(input);
    normalized := [];
    for i := 0 to |sorted|
      invariant normalized == AbsorbAll(sorted[..i])
    {
      assert sorted[..i + 1][..i] == sorted[..i];
      var range := sorted[i];
      if |normalized| > 0 {
        var merged := UnionRanges(normalized[|normalized| - 1], range);
        if merged.Some? {
          normalized := normalized[|normalized| - 1 := merged.value];
          continue;
        }
      }
      normalized := normalized + [range];
    }
    assert sorted[..|sorted|] == sorted;
    SortedGivesCanonical(input, sorted);
  }

  lemma SortedGivesCanonical(input: seq<AudioRange>, sorted: seq<AudioRange>)
    requires Sorted(sorted) && multiset(sorted) == multiset(input)
    ensures AbsorbAll(sorted) == NormalizeRanges(input)
  {
    hide NormalizeRanges, AbsorbAll;
    assert forall r :: r in sorted <==> r in multiset(sorted);
    assert forall r :: r in input <==> r in multiset(input);
    AbsorbAllExact(sorted, 0);
    NormalizeRangesExact(input, 0);
    forall frame ensures InSome(AbsorbAll(sorted), frame) <==> InSome(NormalizeRanges(input), frame) {
      AbsorbAllExact(sorted, frame);
      NormalizeRangesExact(input, frame);
      InSomeByMembers(sorted, input, frame);
      InSomeByMembers(input, sorted, frame);
    }
    SeparatedUnique(AbsorbAll(sorted), NormalizeRanges(input));
  }

  // ----- impacts

  datatype BusImpact = Whole | Ranges(ranges: seq<AudioRange>) {
    predicate Covers(range: AudioRange) {
      Whole? || exists i :: 0 <= i < |ranges| && ranges[i].start <= range.start && ranges[i].end >= range.end
    }
  }

  predicate Normalized(impact: BusImpact) {
    impact.Ranges? ==> Separated(impact.ranges)
  }

  predicate Touches(impact: BusImpact, frame: int) {
    impact.Whole? || InSome(impact.ranges, frame)
  }

  ghost function MergeImpact(a: BusImpact, b: BusImpact): BusImpact {
    if a.Whole? || b.Whole? then Whole else Ranges(NormalizeRanges(a.ranges + b.ranges))
  }

  lemma InSomeConcat(a: seq<AudioRange>, b: seq<AudioRange>, frame: int)
    ensures InSome(a + b, frame) <==> InSome(a, frame) || InSome(b, frame)
  {
    InSomeByMembers(a, a + b, frame);
    InSomeByMembers(b, a + b, frame);
    if InSome(a + b, frame) {
      var i :| 0 <= i < |a + b| && InRange((a + b)[i], frame);
      if i < |a| { assert InRange(a[i], frame); } else { assert InRange(b[i - |a|], frame); }
    }
  }

  lemma MergeImpactExact(a: BusImpact, b: BusImpact, frame: int)
    requires Normalized(a) && Normalized(b)
    ensures Normalized(MergeImpact(a, b))
    ensures Touches(MergeImpact(a, b), frame) <==> Touches(a, frame) || Touches(b, frame)
  {
    hide NormalizeRanges;
    if a.Ranges? && b.Ranges? {
      NormalizeRangesExact(a.ranges + b.ranges, frame);
      InSomeConcat(a.ranges, b.ranges, frame);
    }
  }

  /** A normalized impact is determined by its frames. */
  lemma ImpactUnique(a: BusImpact, b: BusImpact)
    requires Normalized(a) && Normalized(b) && forall frame :: Touches(a, frame) <==> Touches(b, frame)
    ensures a == b
  {
    if a.Ranges? && b.Ranges? {
      forall frame ensures InSome(a.ranges, frame) <==> InSome(b.ranges, frame) {
        assert Touches(a, frame) <==> Touches(b, frame);
      }
      SeparatedUnique(a.ranges, b.ranges);
    } else {
      assert Touches(a, I64_MAX) <==> Touches(b, I64_MAX);
    }
  }

  /** Merging impacts is a union: commutative, associative, idempotent, with the whole bus absorbing. */
  lemma MergeImpactLaws(a: BusImpact, b: BusImpact, c: BusImpact)
    requires Normalized(a) && Normalized(b) && Normalized(c)
    ensures MergeImpact(a, b) == MergeImpact(b, a)
    ensures MergeImpact(MergeImpact(a, b), c) == MergeImpact(a, MergeImpact(b, c))
    ensures MergeImpact(a, a) == a
    ensures MergeImpact(a, Whole) == Whole && MergeImpact(a, Ranges([])) == a
  {
    hide MergeImpact, Normalized, Touches;
    MergeIsUnion(a, b);
    MergeIsUnion(b, a);
    MergeIsUnion(b, c);
    MergeIsUnion(MergeImpact(a, b), c);
    MergeIsUnion(a, MergeImpact(b, c));
    MergeIsUnion(a, a);
    EmptyAndWhole();
    MergeIsUnion(a, Whole);
    MergeIsUnion(a, Ranges([]));
    ImpactUnique(MergeImpact(a, b), MergeImpact(b, a));
    ImpactUnique(MergeImpact(MergeImpact(a, b), c), MergeImpact(a, MergeImpact(b, c)));
    ImpactUnique(MergeImpact(a, a), a);
    ImpactUnique(MergeImpact(a, Whole), Whole);
    ImpactUnique(MergeImpact(a, Ranges([])), a);
  }

  lemma MergeIsUnion(a: BusImpact, b: BusImpact)
    requires Normalized(a) && Normalized(b)
    ensures Normalized(MergeImpact(a, b))
    ensures forall frame :: Touches(MergeImpact(a, b), frame) <==> Touches(a, frame) || Touches(b, frame)
  {
    hide MergeImpact, Normalized, Touches;
    MergeImpactExact(a, b, 0);
    forall frame ensures Touches(MergeImpact(a, b), frame) <==> Touches(a, frame) || Touches(b, frame) {
      MergeImpactExact(a, b, frame);
    }
  }

  lemma EmptyAndWhole()
    ensures Normalized(Whole) && Normalized(Ranges([]))
    ensures forall frame :: Touches(Whole, frame) && !Touches(Ranges([]), frame)
  {}

  /** A normalized impact covers a range exactly when it touches every frame of it. */
  lemma CoversExactly(impact: BusImpact, range: AudioRange)
    requires Normalized(impact)
    ensures impact.Covers(range) <==> forall frame :: InRange(range, frame) ==> Touches(impact, frame)
  {
    if impact.Ranges? {
      var ranges := impact.ranges;
      if impact.Covers(range) {
        var i :| 0 <= i < |ranges| && ranges[i].start <= range.start && ranges[i].end >= range.end;
        forall frame | InRange(range, frame) ensures Touches(impact, frame) { assert InRange(ranges[i], frame); }
      }
      if forall frame :: InRange(range, frame) ==> Touches(impact, frame) {
        assert InRange(range, range.start);
        assert InSome(ranges, range.start);
        var i :| 0 <= i < |ranges| && InRange(ranges[i], range.start);
        if ranges[i].end < range.end {
          var gap := ranges[i].end;
          assert InRange(range, gap) && !InSome(ranges, gap) by { EndIsFree(ranges, i); }
          assert false;
        }
      }
    }
  }

  /** The frame at the end of a separated range lies in no range of the list. */
  lemma EndIsFree(ranges: seq<AudioRange>, i: nat)
    requires Separated(ranges) && i < |ranges|
    ensures !InSome(ranges, ranges[i].end)
  {
    forall j | 0 <= j < |ranges| ensures !InRange(ranges[j], ranges[i].end) {
      if j < i { assert ranges[j].end < ranges[i].start; }
      if i < j { assert ranges[i].end < ranges[j].start; }
    }
  }

  // ----- change sets

  datatype Changes = Changes(domains: set<nat>, audio: map<nat, BusImpact>, routingChanged: bool)

  predicate NormalChanges(c: Changes) {
    forall bus :: bus in c.audio ==> Normalized(c.audio[bus])
  }

  ghost function MergeEntry(a: Option<BusImpact>, b: Option<BusImpact>): Option<BusImpact> {
    if a.None? then b else if b.None? then a else Some(MergeImpact(a.value, b.value))
  }

  ghost function MergeAudio(a: map<nat, BusImpact>, b: map<nat, BusImpact>): map<nat, BusImpact> {
    map bus | bus in a.Keys + b.Keys :: MergeEntry(Lookup(a, bus), Lookup(b, bus)).value
  }

  ghost function UnionChanges(a: Changes, b: Changes): Changes {
    Changes(a.domains + b.domains, MergeAudio(a.audio, b.audio), a.routingChanged || b.routingChanged)
  }

  lemma AudioCommutes(a: map<nat, BusImpact>, b: map<nat, BusImpact>)
    requires forall bus :: bus in a ==> Normalized(a[bus])
    requires forall bus :: bus in b ==> Normalized(b[bus])
    ensures MergeAudio(a, b) == MergeAudio(b, a) && MergeAudio(a, a) == a
    ensures forall bus :: bus in MergeAudio(a, b) ==> Normalized(MergeAudio(a, b)[bus])
  {
    hide MergeImpact, Normalized;
    forall bus | bus in a && bus in b
      ensures MergeImpact(a[bus], b[bus]) == MergeImpact(b[bus], a[bus]) && Normalized(MergeImpact(a[bus], b[bus]))
    {
      MergeImpactLaws(a[bus], b[bus], a[bus]);
      MergeImpactExact(a[bus], b[bus], 0);
    }
    forall bus | bus in a ensures MergeImpact(a[bus], a[bus]) == a[bus] { MergeImpactLaws(a[bus], a[bus], a[bus]); }
  }

  lemma EntryAssociates(a: Option<BusImpact>, b: Option<BusImpact>, c: Option<BusImpact>)
    requires (a.Some? ==> Normalized(a.value)) && (b.Some? ==> Normalized(b.value)) && (c.Some? ==> Normalized(c.value))
    ensures MergeEntry(MergeEntry(a, b), c) == MergeEntry(a, MergeEntry(b, c))
  {
    hide MergeImpact, Normalized;
    if a.Some? && b.Some? && c.Some? { MergeImpactLaws(a.value, b.value, c.value); }
  }

  lemma MergedEntry(a: map<nat, BusImpact>, b: map<nat, BusImpact>, bus: nat)
    ensures Lookup(MergeAudio(a, b), bus) == MergeEntry(Lookup(a, bus), Lookup(b, bus))
  {
    hide MergeImpact;
  }

  lemma SameEntries(a: map<nat, BusImpact>, b: map<nat, BusImpact>)
    requires forall bus :: Lookup(a, bus) == Lookup(b, bus)
    ensures a == b
  {
    forall bus ensures bus in a <==> bus in b { assert Lookup(a, bus) == Lookup(b, bus); }
    forall bus | bus in a ensures a[bus] == b[bus] { assert Lookup(a, bus) == Lookup(b, bus); }
  }

  lemma AudioAssociates(a: map<nat, BusImpact>, b: map<nat, BusImpact>, c: map<nat, BusImpact>)
    requires forall bus :: bus in a ==> Normalized(a[bus])
    requires forall bus :: bus in b ==> Normalized(b[bus])
    requires forall bus :: bus in c ==> Normalized(c[bus])
    ensures MergeAudio(MergeAudio(a, b), c) == MergeAudio(a, MergeAudio(b, c))
  {
    hide MergeEntry, MergeAudio, Normalized;
    forall bus
      ensures Lookup(MergeAudio(MergeAudio(a, b), c), bus) == Lookup(MergeAudio(a, MergeAudio(b, c)), bus)
    {
      MergedEntry(a, b, bus);
      MergedEntry(b, c, bus);
      MergedEntry(MergeAudio(a, b), c, bus);
      MergedEntry(a, MergeAudio(b, c), bus);
      EntryAssociates(Lookup(a, bus), Lookup(b, bus), Lookup(c, bus));
    }
    SameEntries(MergeAudio(MergeAudio(a, b), c), MergeAudio(a, MergeAudio(b, c)));
  }

  /** The union of normalized change sets is commutative, associative and idempotent, and stays normalized. */
  lemma UnionLaws(a: Changes, b: Changes, c: Changes)
    requires NormalChanges(a) && NormalChanges(b) && NormalChanges(c)
    ensures NormalChanges(UnionChanges(a, b))
    ensures UnionChanges(a, b) == UnionChanges(b, a)
    ensures UnionChanges(UnionChanges(a, b), c) == UnionChanges(a, UnionChanges(b, c))
    ensures UnionChanges(a, a) == a
  {
    hide MergeAudio, Normalized;
    AudioCommutes(a.audio, b.audio);
    AudioAssociates(a.audio, b.audio, c.audio);
  }

  predicate Affects(c: Changes, bus: nat, frame: int) {
    bus in c.audio && Touches(c.audio[bus], frame)
  }

  /** A union affects exactly the frames that one of its parts affects. */
  lemma UnionAffects(a: Changes, b: Changes, bus: nat, frame: int)
    requires NormalChanges(a) && NormalChanges(b)
    ensures Affects(UnionChanges(a, b), bus, frame) <==> Affects(a, bus, frame) || Affects(b, bus, frame)
  {
    hide MergeImpact;
    if bus in a.audio && bus in b.audio { MergeImpactExact(a.audio[bus], b.audio[bus], frame); }
  }

  /** A union names a domain, lists a bus, or reports a routing change exactly when one of its parts does. */
  lemma UnionCarries(a: Changes, b: Changes, domain: nat, bus: nat)
    ensures domain in UnionChanges(a, b).domains <==> domain in a.domains || domain in b.domains
    ensures bus in UnionChanges(a, b).audio <==> bus in a.audio || bus in b.audio
    ensures UnionChanges(a, b).routingChanged <==> a.routingChanged || b.routingChanged
  {}

  function OneBus(bus: nat, impact: BusImpact): Changes {
    Changes({}, map[bus := impact], false)
  }

  /** A change set as the program updates it. */
  class ChangeSet {
    var domains: set<nat>
    var audio: map<nat, BusImpact>
    var routingChanged: bool

    ghost function Value(): Changes
      reads this
    {
      Changes(domains, audio, routingChanged)
    }

    constructor ()
      ensures Value() == Changes({}, map[], false)
    {
      domains, audio, routingChanged := {}, map[], false;
    }

    method Touch(domain: nat)
      modifies this
      ensures Value() == old(Value()).(domains := old(domains) + {domain})
    {
      domains := domains + {domain};
    }

    method MarkRoutingChanged()
      modifies this
      ensures Value() == old(Value()).(routingChanged := true)
    {
      routingChanged := true;
    }

    method ComputeMerge(impact: BusImpact, incoming: BusImpact) returns (r: BusImpact)
      ensures r == MergeImpact(impact, incoming)
    {
      if impact.Whole? || incoming.Whole? { return Whole; }
      var normalized := ComputeNormalizedRanges(impact.ranges + incoming.ranges);
      r := Ranges(normalized);
    }

    method MergeBus(bus: nat, incoming: BusImpact)
      modifies this`audio
      ensures audio == old(audio)[bus := if bus in old(audio) then MergeImpact(old(audio)[bus], incoming) else incoming]
    {
      if bus in audio {
        var merged := ComputeMerge(audio[bus], incoming);
        audio := audio[bus := merged];
      } else {
        audio := audio[bus := incoming];
      }
    }

    method InvalidateRange(bus: nat, range: AudioRange)
      modifies this
      ensures Value() == UnionChanges(old(Value()), OneBus(bus, Ranges([range])))
    {
      hide MergeImpact;
      MergeBus(bus, Ranges([range]));
    }

    /** No ranges leave no trace, not even an empty entry. */
    method InvalidateRanges(bus: nat, ranges: seq<AudioRange>)
      modifies this
      ensures Value() == if ranges == [] then old(Value())
                         else UnionChanges(old(Value()), OneBus(bus, Ranges(NormalizeRanges(ranges))))
    {
      hide MergeImpact, NormalizeRanges;
      var normalized := ComputeNormalizedRanges(ranges);
      NormalizeEmpty(ranges);
      if normalized == [] { return; }
      MergeBus(bus, Ranges(normalized));
    }

    method InvalidateBus(bus: nat)
      modifies this
      ensures Value() == UnionChanges(old(Value()), OneBus(bus, Whole))
    {
      audio := audio[bus := Whole];
    }

    method Merge(other: Changes)
      modifies this
      ensures Value() == UnionChanges(old(Value()), other)
    {
      hide MergeImpact;
      domains := domains + other.domains;
      routingChanged := routingChanged || other.routingChanged;
      var rest := other.audio.Keys;
      ghost var start := audio;
      while rest != {}
        invariant rest <= other.audio.Keys
        invariant domains == old(domains) + other.domains
        invariant routingChanged == (old(routingChanged) || other.routingChanged)
        invariant audio.Keys == start.Keys + (other.audio.Keys - rest)
        invariant forall bus :: bus in audio ==>
          audio[bus] == if bus in rest then start[bus]
                        else MergeEntry(Lookup(start, bus), Lookup(other.audio, bus)).value
        decreases rest
      {
        var bus :| bus in rest;
        MergeBus(bus, other.audio[bus]);
        rest := rest - {bus};
      }
      assert audio == MergeAudio(start, other.audio);
    }
  }

  lemma NormalizeEmpty(ranges: seq<AudioRange>)
    ensures NormalizeRanges(ranges) == [] <==> ranges == []
  {
    hide NormalizeRanges;
    if ranges == [] {
      NormalizeOfSeparated(ranges);
    } else {
      assert InRange(ranges[0], ranges[0].start);
      NormalizeRangesExact(ranges, ranges[0].start);
    }
  }
}
