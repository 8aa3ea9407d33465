/** The longest covered stretch (src/analysis.rs). */
module ActivationSpans {
  import opened Numbers
  import opened Outcomes

  /** One activation value; infinities and not-a-number are passed over. */
  datatype Sample = NonFinite | Finite(value: real)

  datatype Span = Span(start: nat, end: nat)

  const ACTIVATION_SPAN_FLOOR: real := 0.5

  // ----- the stretch to find

  /** An occurrence starts here and its footprint reaches from here to the end of the template, or of the data. */
  predicate Onset(activation: seq<Sample>, floor: real, i: int) {
    0 <= i < |activation| && activation[i].Finite? && activation[i].value >= floor
  }

  predicate Reaches(activation: seq<Sample>, floor: real, footprint: nat, i: int, frame: int) {
    Onset(activation, floor, i) && i <= frame < i + footprint
  }

  /** Some occurrence sounds at the frame. */
  predicate Sounds(activation: seq<Sample>, floor: real, footprint: nat, frame: int) {
    0 <= frame < |activation| && exists i | 0 <= i < |activation| :: Reaches(activation, floor, footprint, i, frame)
  }

  /** A stretch of sounding frames that no sounding frame adjoins. */
  predicate Run(activation: seq<Sample>, floor: real, footprint: nat, start: int, end: int) {
    && 0 <= start < end <= |activation|
    && (forall frame | start <= frame < end :: Sounds(activation, floor, footprint, frame))
    && !Sounds(activation, floor, footprint, start - 1)
    && !Sounds(activation, floor, footprint, end)
  }

  /** Runs that share a frame are the same run. */
  lemma RunsMeetOnce(activation: seq<Sample>, floor: real, footprint: nat, a: int, b: int, c: int, d: int)
    requires Run(activation, floor, footprint, a, b) && Run(activation, floor, footprint, c, d)
    requires a < d && c < b
    ensures a == c && b == d
  {
    hide Sounds;
    assert a < c ==> Sounds(activation, floor, footprint, c - 1);
    assert c < a ==> Sounds(activation, floor, footprint, a - 1);
    assert b < d ==> Sounds(activation, floor, footprint, b);
    assert d < b ==> Sounds(activation, floor, footprint, d);
  }

  /** Longer wins, and of equals the earlier. */
  predicate Beats(a: Span, b: Span) {
    a.end - a.start > b.end - b.start || (a.end - a.start == b.end - b.start && a.start <= b.start)
  }

  /** The best of the runs that end before a limit. */
  ghost predicate BestBefore(activation: seq<Sample>, floor: real, footprint: nat, best: Option<Span>, limit: int) {
    && (best.Some? ==> Run(activation, floor, footprint, best.value.start, best.value.end) && best.value.end < limit)
    && (forall a: nat, b: nat :: b < limit && Run(activation, floor, footprint, a, b) ==>
          best.Some? && Beats(best.value, Span(a, b)))
  }

  /** A run is the answer: it beats every run. */
  ghost predicate Strongest(activation: seq<Sample>, floor: real, footprint: nat, span: Span) {
    && Run(activation, floor, footprint, span.start, span.end)
    && (forall a: nat, b: nat :: Run(activation, floor, footprint, a, b) ==> Beats(span, Span(a, b)))
  }

  // ----- the loop

  function Keep(best: Option<Span>, span: Span): Option<Span>
    requires span.start <= span.end
  {
    if best.None? || span.end - span.start > best.value.end - best.value.start then Some(span) else best
  }

  /** Every onset before i is within reach of the open stretch's end. */
  ghost predicate EndsBy(activation: seq<Sample>, floor: real, footprint: nat, i: int, end: int) {
    forall j :: j < i && Onset(activation, floor, j) ==> Min(j + footprint, |activation|) <= end
  }

  /** The open stretch starts where a run starts, sounds throughout, and no earlier onset reaches past it. */
  ghost predicate Open(activation: seq<Sample>, floor: real, footprint: nat, i: int, span: Span) {
    && span.start < span.end <= |activation| && span.start < i
    && !Sounds(activation, floor, footprint, span.start - 1)
    && (forall frame :: span.start <= frame < span.end ==> Sounds(activation, floor, footprint, frame))
    && EndsBy(activation, floor, footprint, i, span.end)
  }

  lemma SilentAfter(activation: seq<Sample>, floor: real, footprint: nat, i: int, end: int, frame: int)
    requires EndsBy(activation, floor, footprint, i, end) && end <= frame && frame < i
    ensures !Sounds(activation, floor, footprint, frame)
  {
    forall j | 0 <= j < |activation| && frame < |activation| ensures !Reaches(activation, floor, footprint, j, frame) {
      assert Onset(activation, floor, j) && j <= frame ==> Min(j + footprint, |activation|) <= end;
    }
  }

  /** Closing the open stretch before a later onset, or at the end, closes a run and the best of all runs so far. */
  lemma CloseIsRun(
      activation: seq<Sample>, floor: real, footprint: nat, i: int, span: Span, best: Option<Span>, limit: int)
    requires Open(activation, floor, footprint, i, span)
    requires BestBefore(activation, floor, footprint, best, span.start)
    requires span.end < limit
    requires limit <= i || (i == |activation| && limit == i + 1)
    ensures BestBefore(activation, floor, footprint, Keep(best, span), limit)
  {
    hide Sounds, Run, EndsBy;
    StretchIsRun(activation, floor, footprint, i, span);
    forall a: nat, b: nat | b < limit && Run(activation, floor, footprint, a, b)
      ensures Beats(Keep(best, span).value, Span(a, b))
    {
      if b >= span.start { LaterRun(activation, floor, footprint, i, span, a, b, limit); }
    }
  }

  lemma StretchIsRun(activation: seq<Sample>, floor: real, footprint: nat, i: int, span: Span)
    requires Open(activation, floor, footprint, i, span)
    requires span.end < i || (i == |activation| && span.end <= i)
    ensures Run(activation, floor, footprint, span.start, span.end)
  {
    if span.end < i { SilentAfter(activation, floor, footprint, i, span.end, span.end); }
  }

  /** A run that does not end before the open stretch is that stretch. */
  lemma LaterRun(
      activation: seq<Sample>, floor: real, footprint: nat, i: int, span: Span, a: nat, b: nat, limit: int)
    requires Open(activation, floor, footprint, i, span)
    requires Run(activation, floor, footprint, span.start, span.end)
    requires Run(activation, floor, footprint, a, b) && span.start <= b < limit
    requires limit <= i || (i == |activation| && limit == i + 1)
    ensures a == span.start && b == span.end
  {
    hide Sounds;
    assert Sounds(activation, floor, footprint, b - 1);
    if a >= span.end { SilentAfter(activation, floor, footprint, i, span.end, a); }
    RunsMeetOnce(activation, floor, footprint, a, b, span.start, span.end);
  }

  /** The frames from an onset up to its clipped reach sound. */
  lemma FootprintSounds(activation: seq<Sample>, floor: real, footprint: nat, i: nat, frame: int)
    requires Onset(activation, floor, i) && i <= frame < Min(i + footprint, |activation|)
    ensures Sounds(activation, floor, footprint, frame)
  {
    assert Reaches(activation, floor, footprint, i, frame);
  }

  lemma Widened(activation: seq<Sample>, floor: real, footprint: nat, i: nat, span: Span)
    requires Open(activation, floor, footprint, i, span) && Onset(activation, floor, i)
    requires footprint >= 1 && i <= span.end
    ensures Open(activation, floor, footprint, i + 1, Span(span.start, Max(Min(i + footprint, |activation|), span.end)))
  {
    hide Sounds;
    var end := Max(Min(i + footprint, |activation|), span.end);
    forall frame | span.start <= frame < end ensures Sounds(activation, floor, footprint, frame) {
      if frame >= span.end { FootprintSounds(activation, floor, footprint, i, frame); }
    }
  }

  lemma Opened(activation: seq<Sample>, floor: real, footprint: nat, i: nat, end: nat)
    requires Onset(activation, floor, i) && footprint >= 1 && end < i + 1
    requires EndsBy(activation, floor, footprint, i, end) && (end < i || i == 0 || end == 0)
    ensures Open(activation, floor, footprint, i + 1, Span(i, Min(i + footprint, |activation|)))
  {
    hide Sounds;
    if i > 0 { SilentAfter(activation, floor, footprint, i, end, i - 1); }
    else { BeforeFirst(activation, floor, footprint); }
    forall frame | i <= frame < Min(i + footprint, |activation|) ensures Sounds(activation, floor, footprint, frame) {
      FootprintSounds(activation, floor, footprint, i, frame);
    }
  }

  lemma BeforeFirst(activation: seq<Sample>, floor: real, footprint: nat)
    ensures !Sounds(activation, floor, footprint, -1)
  {}

  /** Before the first onset there is no run to beat. */
  lemma NoRunsYet(activation: seq<Sample>, floor: real, footprint: nat, i: nat)
    requires EndsBy(activation, floor, footprint, i, 0) && footprint >= 1
    ensures BestBefore(activation, floor, footprint, None, i)
  {
    hide Sounds;
    forall a: nat, b: nat | b < i ensures !Run(activation, floor, footprint, a, b) {
      if a < b { SilentAfter(activation, floor, footprint, i, 0, a); }
    }
  }

  method Peak(activation: seq<Sample>) returns (peak: real)
    ensures peak >= 0.0
    ensures forall i :: 0 <= i < |activation| && activation[i].Finite? ==> activation[i].value <= peak
    ensures peak > 0.0 ==> exists i :: 0 <= i < |activation| && activation[i] == Finite(peak)
  {
    peak := 0.0;
    for k := 0 to |activation|
      invariant peak >= 0.0
      invariant forall i :: 0 <= i < k && activation[i].Finite? ==> activation[i].value <= peak
      invariant peak > 0.0 ==> exists i :: 0 <= i < k && activation[i] == Finite(peak)
    {
      if activation[k].Finite? && activation[k].value > peak {
        peak := activation[k].value;
        assert activation[k] == Finite(peak);
      }
    }
  }

  ghost predicate IsPeak(activation: seq<Sample>, peak: real) {
    && (exists i :: 0 <= i < |activation| && activation[i] == Finite(peak))
    && (forall i :: 0 <= i < |activation| && activation[i].Finite? ==> activation[i].value <= peak)
  }

  ghost predicate StrongestAtHalfPeak(activation: seq<Sample>, templateLength: nat, span: Span) {
    exists peak :: IsPeak(activation, peak) && Strongest(activation, peak / 2.0, Max(templateLength, 1), span)
  }

  /**
   * Nothing exactly when no finite activation is positive; otherwise the earliest of the longest runs that the
   * footprints of the occurrences at half the peak or more cover.
   */
  method StrongestActivationSpan(activation: seq<Sample>, templateLength: nat) returns (best: Option<Span>)
    ensures best.None? <==> forall i :: 0 <= i < |activation| && activation[i].Finite? ==> activation[i].value <= 0.0
    ensures best.Some? ==> StrongestAtHalfPeak(activation, templateLength, best.value)
  {
    hide Sounds, Run, EndsBy;
    var peak := Peak(activation);
    if peak <= 0.0 { return None; }
    var floor := peak * ACTIVATION_SPAN_FLOOR;
    var footprint := Max(templateLength, 1);
    var first: nat :| first < |activation| && activation[first] == Finite(peak);
    best := None;
    var current: Option<Span> := None;
    NothingBefore(activation, floor, footprint);
    for i := 0 to |activation|
      invariant current.None? ==> best.None? && EndsBy(activation, floor, footprint, i, 0) && i <= first
      invariant current.Some? ==>
        Open(activation, floor, footprint, i, current.value)
        && BestBefore(activation, floor, footprint, best, current.value.start)
    {
      if !Onset(activation, floor, i) {
        SkippedFrame(activation, floor, footprint, i);
        continue;
      }
      var reach := Min(i + footprint, |activation|);
      match current {
        case Some(span) =>
          if i <= span.end {
            Widened(activation, floor, footprint, i, span);
            current := Some(Span(span.start, Max(reach, span.end)));
          } else {
            CloseIsRun(activation, floor, footprint, i, span, best, i);
            Opened(activation, floor, footprint, i, span.end);
            best := Keep(best, span);
            current := Some(Span(i, reach));
          }
        case None =>
          NoRunsYet(activation, floor, footprint, i);
          Opened(activation, floor, footprint, i, 0);
          current := Some(Span(i, reach));
      }
    }
    if current.Some? {
      CloseIsRun(activation, floor, footprint, |activation|, current.value, best, |activation| + 1);
      best := Keep(best, current.value);
      AllRunsEndInside(activation, floor, footprint, best.value);
    }
    assert IsPeak(activation, peak);
  }

  lemma NothingBefore(activation: seq<Sample>, floor: real, footprint: nat)
    ensures EndsBy(activation, floor, footprint, 0, 0)
  {}

  lemma SkippedFrame(activation: seq<Sample>, floor: real, footprint: nat, i: nat)
    requires !Onset(activation, floor, i)
    ensures forall end: int ::
      EndsBy(activation, floor, footprint, i, end) ==> EndsBy(activation, floor, footprint, i + 1, end)
  {}

  lemma AllRunsEndInside(activation: seq<Sample>, floor: real, footprint: nat, span: Span)
    requires BestBefore(activation, floor, footprint, Some(span), |activation| + 1)
    ensures Strongest(activation, floor, footprint, span)
  {}

  /** There is only one such stretch. */
  lemma StrongestIsUnique(activation: seq<Sample>, templateLength: nat, a: Span, b: Span)
    requires StrongestAtHalfPeak(activation, templateLength, a)
    requires StrongestAtHalfPeak(activation, templateLength, b)
    ensures a == b
  {
    hide Run;
    var p :| IsPeak(activation, p)
      && Strongest(activation, p / 2.0, Max(templateLength, 1), a);
    var q :| IsPeak(activation, q)
      && Strongest(activation, q / 2.0, Max(templateLength, 1), b);
    assert p == q;
    assert Beats(a, b) && Beats(b, a);
  }
}
