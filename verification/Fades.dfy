/** Clip-edge envelopes (src/arrangement.rs). */
module Fades {
  import opened Numbers
  import opened Outcomes
  import opened Arrangement

  function Lerp(left: real, right: real, amount: real): real {
    left + (right - left) * amount
  }

  function Clamp(x: real): real {
    if x < 0.0 then 0.0 else if x > 1.0 then 1.0 else x
  }

  /** A fade curve as a function of its phase. */
  type Curves = (FadeCurve, real) -> real

  ghost predicate RunsFromZeroToOne(curves: Curves) {
    forall kind :: curves(kind, 0.0) == 0.0 && curves(kind, 1.0) == 1.0
  }

  /** The phase reached after `elapsed` frames of a fade. */
  function PhaseAt(fade: Fade, elapsed: int): real
    requires fade.duration > 0
  {
    Lerp(fade.phaseStart, fade.phaseEnd, elapsed as real / fade.duration as real)
  }

  function FadeInFactor(fade: Option<Fade>, offset: int, curves: Curves): real
    requires fade.Some? ==> fade.value.duration > 0
  {
    if fade.Some? && offset <= fade.value.duration
    then curves(fade.value.curve, Clamp(PhaseAt(fade.value, offset))) else 1.0
  }

  function FadeOutFactor(fade: Option<Fade>, len: int, offset: int, curves: Curves): real
    requires fade.Some? ==> fade.value.duration > 0
  {
    if fade.Some? && offset >= len - fade.value.duration
    then 1.0 - curves(fade.value.curve, Clamp(PhaseAt(fade.value, offset - (len - fade.value.duration)))) else 1.0
  }

  /** The envelope at a project offset, or nothing beyond the clip. */
  function FadeGainAt(fades: ClipFades, len: U64, offset: U64, curves: Curves): Option<real>
    requires ValidFades(fades, len)
  {
    if offset > len then None
    else Some(Combined(FadeInFactor(fades.fadeIn, offset, curves), FadeOutFactor(fades.fadeOut, len, offset, curves)))
  }

  function Combined(fadeIn: real, fadeOut: real): real {
    Clamp(fadeIn * fadeOut)
  }

  // ----- cutting

  predicate DurationsFit(fades: ClipFades, total: int) {
    && (fades.fadeIn.Some? ==> 0 < fades.fadeIn.value.duration <= total)
    && (fades.fadeOut.Some? ==> 0 < fades.fadeOut.value.duration <= total)
  }

  function SplitFadeIn(fade: Fade, leftLen: U64): (Option<Fade>, Option<Fade>)
    requires fade.duration > 0
  {
    if leftLen >= fade.duration then (Some(fade), None)
    else
      var phase := PhaseAt(fade, leftLen);
      (Some(fade.(duration := leftLen, phaseEnd := phase)),
       Some(fade.(duration := fade.duration - leftLen, phaseStart := phase)))
  }

  function SplitFadeOut(fade: Fade, total: U64, leftLen: U64): (Option<Fade>, Option<Fade>)
    requires 0 < fade.duration <= total && leftLen <= total
  {
    var fadeStart := total - fade.duration;
    if leftLen <= fadeStart then (None, Some(fade))
    else
      var phase := PhaseAt(fade, leftLen - fadeStart);
      (Some(fade.(duration := fade.duration - (total - leftLen), phaseEnd := phase)),
       Some(fade.(duration := total - leftLen, phaseStart := phase)))
  }

  function SplitFades(fades: ClipFades, total: U64, leftLen: U64): (ClipFades, ClipFades)
    requires DurationsFit(fades, total) && leftLen <= total
  {
    var (inLeft, inRight) :=
      if fades.fadeIn.Some? then SplitFadeIn(fades.fadeIn.value, leftLen) else (None, None);
    var (outLeft, outRight) :=
      if fades.fadeOut.Some? then SplitFadeOut(fades.fadeOut.value, total, leftLen) else (None, None);
    (ClipFades(inLeft, outLeft), ClipFades(inRight, outRight))
  }

  function TrimFadesLeft(fades: ClipFades, total: U64, removed: U64): ClipFades
    requires DurationsFit(fades, total) && removed <= total
  {
    SplitFades(fades, total, removed).1
  }

  function TrimFadesRight(fades: ClipFades, total: U64, removed: U64): ClipFades
    requires DurationsFit(fades, total) && removed <= total
  {
    SplitFades(fades, total, total - removed).0
  }

  function ClampFade(fade: Option<Fade>, len: U64): Option<Fade> {
    if fade.None? then None else Some(fade.value.(duration := Min(fade.value.duration, len)))
  }

  function ClampFades(fades: ClipFades, len: U64): ClipFades {
    ClipFades(ClampFade(fades.fadeIn, len), ClampFade(fades.fadeOut, len))
  }

  // ----- phases

  /** Strictly inside a fade, the phase is strictly between the two ends. */
  lemma PhaseBetween(fade: Fade, elapsed: int)
    requires fade.duration > 0 && fade.phaseStart < fade.phaseEnd
    requires 0 <= elapsed <= fade.duration
    ensures fade.phaseStart <= PhaseAt(fade, elapsed) <= fade.phaseEnd
    ensures elapsed > 0 ==> fade.phaseStart < PhaseAt(fade, elapsed)
    ensures elapsed < fade.duration ==> PhaseAt(fade, elapsed) < fade.phaseEnd
    ensures elapsed == 0 ==> PhaseAt(fade, elapsed) == fade.phaseStart
    ensures elapsed == fade.duration ==> PhaseAt(fade, elapsed) == fade.phaseEnd
  {
    Fraction(elapsed as real, fade.duration as real);
    RealScale(fade.phaseEnd - fade.phaseStart, elapsed as real / fade.duration as real);
  }

  lemma Fraction(e: real, d: real)
    requires 0.0 <= e <= d && d > 0.0
    ensures 0.0 <= e / d <= 1.0
    ensures e < d ==> e / d < 1.0
    ensures e > 0.0 ==> e / d > 0.0
    ensures e == d ==> e / d == 1.0
  {
    var t := e / d;
    assert t * d == e;
    assert (1.0 - t) * d == d - e;
    if e == d { assert (t - 1.0) * d == 0.0; }
  }

  lemma RealScale(span: real, t: real)
    requires span > 0.0 && 0.0 <= t <= 1.0
    ensures 0.0 <= span * t <= span
    ensures t > 0.0 ==> span * t > 0.0
    ensures t < 1.0 ==> span * t < span
  {
    assert span - span * t == span * (1.0 - t);
  }

  /** Re-interpolating the first part of a fade reproduces the fade. */
  lemma FirstPartKeepsPhase(fade: Fade, part: int, elapsed: int)
    requires fade.duration > 0 && 0 < part <= U64_MAX
    ensures PhaseAt(fade.(duration := part, phaseEnd := PhaseAt(fade, part)), elapsed) == PhaseAt(fade, elapsed)
  {
    var d, p, e, span := fade.duration as real, part as real, elapsed as real, fade.phaseEnd - fade.phaseStart;
    calc {
      PhaseAt(fade.(duration := part, phaseEnd := PhaseAt(fade, part)), elapsed);
      fade.phaseStart + span * (p / d) * (e / p);
      { RatioProduct(p, d, e); assert span * (p / d) * (e / p) == span * ((p / d) * (e / p)); }
      fade.phaseStart + span * (e / d);
      PhaseAt(fade, elapsed);
    }
  }

  lemma RatioProduct(p: real, d: real, e: real)
    requires p > 0.0 && d > 0.0
    ensures (p / d) * (e / p) == e / d
  {
    var x, y := p / d, e / p;
    assert x * d == p && y * p == e;
    assert x * y * d == y * (x * d) == e;
  }

  /** Re-interpolating the rest of a fade reproduces the fade. */
  lemma RestKeepsPhase(fade: Fade, part: int, elapsed: int)
    requires 0 <= part < fade.duration
    ensures PhaseAt(fade.(duration := fade.duration - part, phaseStart := PhaseAt(fade, part)), elapsed)
         == PhaseAt(fade, part + elapsed)
  {
    var d, p, e, span := fade.duration as real, part as real, elapsed as real, fade.phaseEnd - fade.phaseStart;
    var r := d - p;
    var x, y, z := p / d, e / r, (p + e) / d;
    assert x * d == p && y * r == e && z * d == p + e;
    assert (1.0 - x) * d == r;
    assert (1.0 - x) * y * d == y * ((1.0 - x) * d) == e;
    assert (x + (1.0 - x) * y) * d == z * d;
    assert x + (1.0 - x) * y == z;
    assert span * x + (span - span * x) * y == span * (x + (1.0 - x) * y);
  }

  // ----- what the envelope is

  predicate FadingIn(fades: ClipFades, offset: int) {
    fades.fadeIn.Some? && offset <= fades.fadeIn.value.duration
  }

  predicate FadingOut(fades: ClipFades, len: int, offset: int) {
    fades.fadeOut.Some? && offset >= len - fades.fadeOut.value.duration
  }

  /** The phase moves linearly from the start phase to the end phase of the fade. */
  function LinearPhase(fade: Fade, elapsed: int): real
    requires fade.duration > 0
  {
    fade.phaseStart + (fade.phaseEnd - fade.phaseStart) * (elapsed as real / fade.duration as real)
  }

  /** A fade-in follows its curve; elsewhere it leaves the level alone. */
  function InLevel(fades: ClipFades, offset: int, curves: Curves): real
    requires fades.fadeIn.Some? ==> fades.fadeIn.value.duration > 0
  {
    if FadingIn(fades, offset) then curves(fades.fadeIn.value.curve, LinearPhase(fades.fadeIn.value, offset)) else 1.0
  }

  /** A fade-out takes away what its curve has reached since it began. */
  function OutLevel(fades: ClipFades, len: int, offset: int, curves: Curves): real
    requires fades.fadeOut.Some? ==> fades.fadeOut.value.duration > 0
  {
    if FadingOut(fades, len, offset)
    then 1.0 - curves(fades.fadeOut.value.curve,
                      LinearPhase(fades.fadeOut.value, offset - (len - fades.fadeOut.value.duration)))
    else 1.0
  }

  /** Inside the clip, and nowhere else, the gain is the product of the two levels, cut to the range from 0 to 1. */
  lemma EnvelopeIs(fades: ClipFades, len: U64, offset: U64, curves: Curves)
    requires ValidFades(fades, len)
    ensures FadeGainAt(fades, len, offset, curves).Some? <==> offset <= len
    ensures offset <= len ==>
      var gain := InLevel(fades, offset, curves) * OutLevel(fades, len, offset, curves);
      FadeGainAt(fades, len, offset, curves) == Some(if gain < 0.0 then 0.0 else if gain > 1.0 then 1.0 else gain)
  {
    if offset <= len {
      InLevelIs(fades, len, offset, curves);
      OutLevelIs(fades, len, offset, curves);
      hide InLevel, OutLevel, FadeInFactor, FadeOutFactor;
    }
  }

  lemma InLevelIs(fades: ClipFades, len: U64, offset: U64, curves: Curves)
    requires ValidFades(fades, len)
    ensures FadeInFactor(fades.fadeIn, offset, curves) == InLevel(fades, offset, curves)
  {
    if FadingIn(fades, offset) { PhaseIsLinear(fades.fadeIn.value, offset); }
  }

  /** Inside a valid fade the phase is the linear one and needs no cutting. */
  lemma PhaseIsLinear(fade: Fade, elapsed: int)
    requires fade.duration > 0 && 0.0 <= fade.phaseStart < fade.phaseEnd <= 1.0
    requires 0 <= elapsed <= fade.duration
    ensures Clamp(PhaseAt(fade, elapsed)) == LinearPhase(fade, elapsed)
  {
    PhaseBetween(fade, elapsed);
    assert PhaseAt(fade, elapsed) == LinearPhase(fade, elapsed);
  }

  lemma OutLevelIs(fades: ClipFades, len: U64, offset: U64, curves: Curves)
    requires ValidFades(fades, len) && offset <= len
    ensures FadeOutFactor(fades.fadeOut, len, offset, curves) == OutLevel(fades, len, offset, curves)
  {
    if FadingOut(fades, len, offset) {
      PhaseIsLinear(fades.fadeOut.value, offset - (len - fades.fadeOut.value.duration));
    }
  }

  /** Full fades start and end in silence, and between the fades the clip sounds at full level. */
  lemma EnvelopeEnds(fades: ClipFades, len: U64, offset: U64, curves: Curves)
    requires ValidFades(fades, len) && RunsFromZeroToOne(curves)
    ensures fades.fadeIn.Some? && fades.fadeIn.value.phaseStart == 0.0 ==>
      FadeGainAt(fades, len, 0, curves) == Some(0.0)
    ensures fades.fadeOut.Some? && fades.fadeOut.value.phaseEnd == 1.0 ==>
      FadeGainAt(fades, len, len, curves) == Some(0.0)
    ensures offset <= len && !FadingIn(fades, offset) && !FadingOut(fades, len, offset) ==>
      FadeGainAt(fades, len, offset, curves) == Some(1.0)
  {
    EnvelopeIs(fades, len, 0, curves);
    EnvelopeIs(fades, len, len, curves);
    EnvelopeIs(fades, len, offset, curves);
    if fades.fadeIn.Some? { PhaseBetween(fades.fadeIn.value, 0); }
    if fades.fadeOut.Some? { PhaseBetween(fades.fadeOut.value, fades.fadeOut.value.duration); }
  }

  // ----- one cut

  /** A fade that does not reach its natural end spans the whole clip, so no cut can fall on that end. */
  predicate CutFromFull(fades: ClipFades, total: int) {
    && (fades.fadeIn.Some? && fades.fadeIn.value.phaseEnd < 1.0 ==> fades.fadeIn.value.duration == total)
    && (fades.fadeOut.Some? && fades.fadeOut.value.phaseStart > 0.0 ==> fades.fadeOut.value.duration == total)
  }

  /** The two halves of a cut are valid fades of their clips, and again cut from full ones. */
  lemma SplitFadesValid(fades: ClipFades, total: U64, leftLen: U64)
    requires ValidFades(fades, total) && leftLen <= total
    ensures var (left, right) := SplitFades(fades, total, leftLen);
      && (0 < leftLen ==> ValidFades(left, leftLen))
      && (leftLen < total ==> ValidFades(right, total - leftLen))
      && (CutFromFull(fades, total) && 0 < leftLen ==> CutFromFull(left, leftLen))
      && (CutFromFull(fades, total) && leftLen < total ==> CutFromFull(right, total - leftLen))
  {
    if fades.fadeIn.Some? && leftLen < fades.fadeIn.value.duration {
      PhaseBetween(fades.fadeIn.value, leftLen);
    }
    if fades.fadeOut.Some? && leftLen > total - fades.fadeOut.value.duration {
      PhaseBetween(fades.fadeOut.value, leftLen - (total - fades.fadeOut.value.duration));
    }
  }

  /** On its own frames a part plays what the whole plays `base` frames later. */
  ghost predicate FadeInMatches(part: Option<Fade>, partLen: int, whole: Option<Fade>, base: int, curves: Curves)
    requires part.Some? ==> part.value.duration > 0
    requires whole.Some? ==> whole.value.duration > 0
  {
    forall o: int, at: int :: 0 <= o <= partLen && at == base + o ==>
      FadeInFactor(part, o, curves) == FadeInFactor(whole, at, curves)
  }

  ghost predicate FadeOutMatches(
    part: Option<Fade>, partLen: int, whole: Option<Fade>, total: int, base: int, curves: Curves)
    requires part.Some? ==> part.value.duration > 0
    requires whole.Some? ==> whole.value.duration > 0
  {
    forall o: int, at: int :: 0 <= o <= partLen && at == base + o ==>
      FadeOutFactor(part, partLen, o, curves) == FadeOutFactor(whole, total, at, curves)
  }

  ghost predicate EnvelopeMatches(
    part: ClipFades, partLen: U64, whole: ClipFades, total: U64, base: int, curves: Curves)
    requires ValidFades(part, partLen) && ValidFades(whole, total)
  {
    forall o: U64, at: U64 :: o <= partLen && at == base + o ==>
      FadeGainAt(part, partLen, o, curves) == FadeGainAt(whole, total, at, curves)
  }

  lemma FactorsMatch(part: ClipFades, partLen: U64, whole: ClipFades, total: U64, base: int, curves: Curves)
    requires ValidFades(part, partLen) && ValidFades(whole, total)
    requires 0 <= base && base + partLen <= total
    requires FadeInMatches(part.fadeIn, partLen, whole.fadeIn, base, curves)
    requires FadeOutMatches(part.fadeOut, partLen, whole.fadeOut, total, base, curves)
    ensures EnvelopeMatches(part, partLen, whole, total, base, curves)
  {
    forall o: U64, at: U64 | o <= partLen && at == base + o
      ensures FadeGainAt(part, partLen, o, curves) == FadeGainAt(whole, total, at, curves)
    {
      FactorsMatchAt(part, partLen, whole, total, base, o, at, curves);
    }
  }

  lemma FactorsMatchAt(
    part: ClipFades, partLen: U64, whole: ClipFades, total: U64, base: int, o: U64, at: U64, curves: Curves)
    requires ValidFades(part, partLen) && ValidFades(whole, total)
    requires o <= partLen && at == base + o && at <= total
    requires FadeInMatches(part.fadeIn, partLen, whole.fadeIn, base, curves)
    requires FadeOutMatches(part.fadeOut, partLen, whole.fadeOut, total, base, curves)
    ensures FadeGainAt(part, partLen, o, curves) == FadeGainAt(whole, total, at, curves)
  {
    assert FadeInFactor(part.fadeIn, o, curves) == FadeInFactor(whole.fadeIn, at, curves);
    assert FadeOutFactor(part.fadeOut, partLen, o, curves) == FadeOutFactor(whole.fadeOut, total, at, curves);
  }

  lemma FadeInThroughCut(fade: Fade, total: U64, leftLen: U64, curves: Curves)
    requires ValidFade(fade, total) && leftLen <= total
    requires fade.phaseEnd < 1.0 ==> fade.duration == total
    requires RunsFromZeroToOne(curves)
    ensures var (left, right) := SplitFadeIn(fade, leftLen);
      && (0 < leftLen ==> FadeInMatches(left, leftLen, Some(fade), 0, curves))
      && (leftLen < total ==> FadeInMatches(right, total - leftLen, Some(fade), leftLen, curves))
  {
    if leftLen < fade.duration {
      var (left, right) := SplitFadeIn(fade, leftLen);
      if 0 < leftLen {
        forall o: int, at: int | 0 <= o <= leftLen && at == 0 + o
          ensures FadeInFactor(left, o, curves) == FadeInFactor(Some(fade), at, curves)
        {
          FirstPartKeepsPhase(fade, leftLen, o);
        }
      }
      forall o: int, at: int | 0 <= o <= total - leftLen && at == leftLen + o
        ensures FadeInFactor(right, o, curves) == FadeInFactor(Some(fade), at, curves)
      {
        RestKeepsPhase(fade, leftLen, o);
      }
    } else {
      PhaseBetween(fade, fade.duration);
    }
  }

  lemma FadeOutThroughCut(fade: Fade, total: U64, leftLen: U64, curves: Curves)
    requires ValidFade(fade, total) && leftLen <= total
    requires fade.phaseStart > 0.0 ==> fade.duration == total
    requires RunsFromZeroToOne(curves)
    ensures var (left, right) := SplitFadeOut(fade, total, leftLen);
      && (0 < leftLen ==> FadeOutMatches(left, leftLen, Some(fade), total, 0, curves))
      && (leftLen < total ==> FadeOutMatches(right, total - leftLen, Some(fade), total, leftLen, curves))
  {
    var fadeStart := total - fade.duration;
    var (left, right) := SplitFadeOut(fade, total, leftLen);
    if leftLen > fadeStart {
      var elapsed := leftLen - fadeStart;
      forall o: int, at: int | 0 <= o <= leftLen && at == 0 + o
        ensures FadeOutFactor(left, leftLen, o, curves) == FadeOutFactor(Some(fade), total, at, curves)
      {
        FirstPartKeepsPhase(fade, elapsed, o - fadeStart);
      }
      if leftLen < total {
        var rightLen := total - leftLen;
        forall o: int, at: int | 0 <= o <= rightLen && at == leftLen + o
          ensures FadeOutFactor(right, rightLen, o, curves) == FadeOutFactor(Some(fade), total, at, curves)
        {
          RestKeepsPhase(fade, elapsed, o);
        }
      }
    } else {
      PhaseBetween(fade, 0);
    }
  }

  /** Both halves of a cut sound exactly as the clip did, the cut frame included. */
  lemma CutKeepsEnvelope(fades: ClipFades, total: U64, leftLen: U64, curves: Curves)
    requires ValidFades(fades, total) && CutFromFull(fades, total) && leftLen <= total
    requires RunsFromZeroToOne(curves)
    ensures var (left, right) := SplitFades(fades, total, leftLen);
      && (0 < leftLen ==>
           ValidFades(left, leftLen) && EnvelopeMatches(left, leftLen, fades, total, 0, curves))
      && (leftLen < total ==>
           ValidFades(right, total - leftLen)
           && EnvelopeMatches(right, total - leftLen, fades, total, leftLen, curves))
  {
    SplitFadesValid(fades, total, leftLen);
    var (left, right) := SplitFades(fades, total, leftLen);
    if fades.fadeIn.Some? { FadeInThroughCut(fades.fadeIn.value, total, leftLen, curves); }
    if fades.fadeOut.Some? { FadeOutThroughCut(fades.fadeOut.value, total, leftLen, curves); }
    if 0 < leftLen { FactorsMatch(left, leftLen, fades, total, 0, curves); }
    if leftLen < total { FactorsMatch(right, total - leftLen, fades, total, leftLen, curves); }
  }

  // ----- any number of cuts

  /** One half kept by a split or a trim. */
  datatype Cut = KeepLeft(len: U64) | KeepRight(removed: U64)

  /** What is left of a clip after some cuts: its envelope, where it began, and how long it is. */
  datatype Piece = Piece(fades: ClipFades, base: int, len: U64)

  predicate CutFits(cut: Cut, len: U64) {
    match cut
    case KeepLeft(n) => 0 < n <= len
    case KeepRight(n) => n < len
  }

  function CutPiece(piece: Piece, cut: Cut): Piece
    requires ValidFades(piece.fades, piece.len) && CutFits(cut, piece.len)
  {
    match cut
    case KeepLeft(n) => Piece(TrimFadesRight(piece.fades, piece.len, piece.len - n), piece.base, n)
    case KeepRight(n) => Piece(TrimFadesLeft(piece.fades, piece.len, n), piece.base + n, piece.len - n)
  }

  lemma CutPieceValid(piece: Piece, cut: Cut)
    requires ValidFades(piece.fades, piece.len) && CutFits(cut, piece.len)
    ensures ValidFades(CutPiece(piece, cut).fades, CutPiece(piece, cut).len)
    ensures CutFromFull(piece.fades, piece.len) ==> CutFromFull(CutPiece(piece, cut).fades, CutPiece(piece, cut).len)
  {
    SplitFadesValid(piece.fades, piece.len, if cut.KeepLeft? then cut.len else cut.removed);
  }

  /** The piece left after a whole list of cuts, or nothing when some cut falls outside. */
  function CutAll(piece: Piece, cuts: seq<Cut>): Option<Piece>
    requires ValidFades(piece.fades, piece.len)
    decreases |cuts|
  {
    if cuts == [] then Some(piece)
    else if !CutFits(cuts[0], piece.len) then None
    else
      CutPieceValid(piece, cuts[0]);
      CutAll(CutPiece(piece, cuts[0]), cuts[1..])
  }

  predicate FullFades(fades: ClipFades) {
    && (fades.fadeIn.Some? ==> fades.fadeIn.value.phaseStart == 0.0 && fades.fadeIn.value.phaseEnd == 1.0)
    && (fades.fadeOut.Some? ==> fades.fadeOut.value.phaseStart == 0.0 && fades.fadeOut.value.phaseEnd == 1.0)
  }

  lemma OneCutMatches(piece: Piece, cut: Cut, curves: Curves)
    requires ValidFades(piece.fades, piece.len) && CutFromFull(piece.fades, piece.len)
    requires RunsFromZeroToOne(curves) && CutFits(cut, piece.len)
    ensures var next := CutPiece(piece, cut);
      && ValidFades(next.fades, next.len)
      && EnvelopeMatches(next.fades, next.len, piece.fades, piece.len, next.base - piece.base, curves)
  {
    CutKeepsEnvelope(piece.fades, piece.len, if cut.KeepLeft? then cut.len else cut.removed, curves);
  }

  lemma MatchesCompose(
    a: ClipFades, aLen: U64, b: ClipFades, bLen: U64, c: ClipFades, cLen: U64, ab: int, bc: int, curves: Curves)
    requires ValidFades(a, aLen) && ValidFades(b, bLen) && ValidFades(c, cLen)
    requires 0 <= ab && ab + aLen <= bLen && 0 <= bc && bc + bLen <= cLen
    requires EnvelopeMatches(a, aLen, b, bLen, ab, curves)
    requires EnvelopeMatches(b, bLen, c, cLen, bc, curves)
    ensures EnvelopeMatches(a, aLen, c, cLen, ab + bc, curves)
  {
    forall o: U64, at: U64 | o <= aLen && at == ab + bc + o
      ensures FadeGainAt(a, aLen, o, curves) == FadeGainAt(c, cLen, at, curves)
    {
      var middle: U64 := ab + o;
      assert FadeGainAt(a, aLen, o, curves) == FadeGainAt(b, bLen, middle, curves);
      assert at == bc + middle;
    }
  }

  /** However often a clip is cut, each piece plays the part of the envelope it was cut from. */
  lemma {:induction false} CutsKeepEnvelope(piece: Piece, cuts: seq<Cut>, curves: Curves)
    requires ValidFades(piece.fades, piece.len) && CutFromFull(piece.fades, piece.len)
    requires RunsFromZeroToOne(curves)
    requires CutAll(piece, cuts).Some?
    ensures var rest := CutAll(piece, cuts).value;
      && ValidFades(rest.fades, rest.len)
      && 0 <= rest.base - piece.base
      && rest.base - piece.base + rest.len <= piece.len
      && EnvelopeMatches(rest.fades, rest.len, piece.fades, piece.len, rest.base - piece.base, curves)
    decreases |cuts|
  {
    if cuts != [] {
      var next := CutPiece(piece, cuts[0]);
      CutPieceValid(piece, cuts[0]);
      OneCutMatches(piece, cuts[0], curves);
      CutsKeepEnvelope(next, cuts[1..], curves);
      var rest := CutAll(next, cuts[1..]).value;
      MatchesCompose(rest.fades, rest.len, next.fades, next.len, piece.fades, piece.len,
                     rest.base - next.base, next.base - piece.base, curves);
    }
  }

  /** The promise for ordinary fades: every piece of a clip with full fades keeps the original envelope. */
  lemma FullFadesSurviveCuts(fades: ClipFades, total: U64, cuts: seq<Cut>, curves: Curves)
    requires ValidFades(fades, total) && FullFades(fades)
    requires RunsFromZeroToOne(curves)
    requires CutAll(Piece(fades, 0, total), cuts).Some?
    ensures var rest := CutAll(Piece(fades, 0, total), cuts).value;
      && ValidFades(rest.fades, rest.len)
      && 0 <= rest.base && rest.base + rest.len <= total
      && EnvelopeMatches(rest.fades, rest.len, fades, total, rest.base, curves)
  {
    CutsKeepEnvelope(Piece(fades, 0, total), cuts, curves);
  }

  // ----- two cuts in a row

  lemma RestOfRestPhase(fade: Fade, first: int, second: int)
    requires 0 <= first && 0 <= second && first + second < fade.duration
    ensures var once := fade.(duration := fade.duration - first, phaseStart := PhaseAt(fade, first));
      PhaseAt(once, second) == PhaseAt(fade, first + second)
  {
    RestKeepsPhase(fade, first, second);
  }

  /** Removing nothing changes no fade. */
  lemma TrimFadesNothing(fades: ClipFades, total: U64)
    requires ValidFades(fades, total)
    ensures TrimFadesLeft(fades, total, 0) == fades && TrimFadesRight(fades, total, 0) == fades
  {
    if fades.fadeIn.Some? { PhaseBetween(fades.fadeIn.value, 0); }
    if fades.fadeOut.Some? {
      PhaseBetween(fades.fadeOut.value, 0);
      PhaseBetween(fades.fadeOut.value, fades.fadeOut.value.duration);
    }
  }

  /** Trimming the left edge twice leaves the fades of the single combined trim. */
  lemma TrimFadesLeftTwice(fades: ClipFades, total: U64, first: U64, second: U64)
    requires ValidFades(fades, total) && first + second < total
    ensures ValidFades(TrimFadesLeft(fades, total, first), total - first)
    ensures TrimFadesLeft(TrimFadesLeft(fades, total, first), total - first, second)
         == TrimFadesLeft(fades, total, first + second)
  {
    SplitFadesValid(fades, total, first);
    if fades.fadeIn.Some? && first + second < fades.fadeIn.value.duration {
      RestOfRestPhase(fades.fadeIn.value, first, second);
    }
    if fades.fadeOut.Some? {
      var fade := fades.fadeOut.value;
      var elapsed := first - (total - fade.duration);
      if elapsed > 0 {
        RestOfRestPhase(fade, elapsed, second);
        if second == 0 { PhaseBetween(fade, elapsed); }
      }
    }
  }

  /** The same for the right edge. */
  lemma TrimFadesRightTwice(fades: ClipFades, total: U64, first: U64, second: U64)
    requires ValidFades(fades, total) && first + second < total
    ensures ValidFades(TrimFadesRight(fades, total, first), total - first)
    ensures TrimFadesRight(TrimFadesRight(fades, total, first), total - first, second)
         == TrimFadesRight(fades, total, first + second)
  {
    SplitFadesValid(fades, total, total - first);
    var keptOnce, keptTwice := total - first, total - first - second;
    if fades.fadeIn.Some? {
      var fade := fades.fadeIn.value;
      if keptOnce < fade.duration {
        FirstPartKeepsPhase(fade, keptOnce, keptTwice);
      }
    }
    if fades.fadeOut.Some? {
      var fade := fades.fadeOut.value;
      var fadeStart := total - fade.duration;
      if keptOnce > fadeStart && keptTwice > fadeStart {
        FirstPartKeepsPhase(fade, keptOnce - fadeStart, keptTwice - fadeStart);
      }
    }
  }
}
