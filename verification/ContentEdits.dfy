/** Edits of clip content (src/arrangement.rs). */
module ContentEdits {
  import opened Numbers
  import opened Outcomes
  import opened Arithmetic
  import opened StretchRatios
  import opened Arrangement

  type ContentResult = Result<ClipContent, ArrangementError>

  /** What validation guarantees of stored content: its ratio can be divided by. */
  predicate Mappable(content: ClipContent) {
    content.AudioContent? ==> content.audio.playback.ratio.NonZero()
  }

  function MapOffset(audio: AudioRegion, delta: U64): Result<U64, ArrangementError>
    requires audio.playback.ratio.NonZero()
  {
    if audio.warped then Err(WarpedEditRequiresCompiler)
    else
      match audio.playback.ratio.SourceOffset(delta)
      case Ok(mapped) => Ok(mapped)
      case Err(cause) => Err(Stretch(cause))
  }

  function WithSource(content: ClipContent, start: int, end: int): ContentResult
    requires content.AudioContent?
  {
    if 0 <= start <= U64_MAX && 0 <= end <= U64_MAX
    then Ok(AudioContent(content.audio.(source := SourceRange(start, end)))) else Err(ArrangementError.TimeOverflow)
  }

  function Shifted(content: ClipContent, delta: int, overflow: ArrangementError): ContentResult
    requires !content.AudioContent?
  {
    var offset := (if content.PatternContent? then content.patternOffset else content.automationOffset) + delta;
    if !(0 <= offset <= U64_MAX) then Err(overflow)
    else if content.PatternContent? then Ok(content.(patternOffset := offset))
    else Ok(content.(automationOffset := offset))
  }

  /** Moves the content's start under a left edge that moved right by delta. */
  function AdvanceContent(content: ClipContent, delta: U64): ContentResult
    requires Mappable(content)
  {
    if !content.AudioContent? then Shifted(content, delta, ArrangementError.TimeOverflow)
    else
      var audio := content.audio;
      var sourceDelta :- MapOffset(audio, delta);
      if sourceDelta >= audio.source.Len() then Err(InvalidTrim)
      else if audio.playback.reverse then WithSource(content, audio.source.start, audio.source.end - sourceDelta)
      else WithSource(content, audio.source.start + sourceDelta, audio.source.end)
  }

  /** Moves the content's end under a right edge that moved left by delta. */
  function RetreatContentEnd(content: ClipContent, delta: U64): ContentResult
    requires Mappable(content)
  {
    if !content.AudioContent? then Ok(content)
    else
      var audio := content.audio;
      var sourceDelta :- MapOffset(audio, delta);
      if sourceDelta >= audio.source.Len() then Err(InvalidTrim)
      else if audio.playback.reverse then WithSource(content, audio.source.start + sourceDelta, audio.source.end)
      else WithSource(content, audio.source.start, audio.source.end - sourceDelta)
  }

  /** Moves the content beneath a clip that stays in place. */
  function SlipContent(content: ClipContent, delta: I64): ContentResult
    requires Mappable(content)
  {
    if !content.AudioContent? then Shifted(content, delta, SourceOutOfBounds)
    else
      var magnitude :- MapOffset(content.audio, Abs(delta));
      var signed: int := if delta < 0 then 0 - magnitude else magnitude;
      var start, end := content.audio.source.start + signed, content.audio.source.end + signed;
      if start < 0 || end > U64_MAX then Err(SourceOutOfBounds)
      else if end < 0 || start > U64_MAX then Err(SourceOutOfBounds)
      else WithSource(content, start, end)
  }

  /** The contents of the two halves of a clip cut at a project offset. */
  function SplitContent(content: ClipContent, offset: U64): Result<(ClipContent, ClipContent), ArrangementError>
    requires Mappable(content)
  {
    if !content.AudioContent? then
      var right :- AdvanceContent(content, offset);
      Ok((content, right))
    else
      var audio := content.audio;
      var sourceOffset :- MapOffset(audio, offset);
      if audio.playback.reverse then
        var left :- WithSource(content, audio.source.end - sourceOffset, audio.source.end);
        var right :- WithSource(content, audio.source.start, audio.source.end - sourceOffset);
        Ok((left, right))
      else
        var left :- WithSource(content, audio.source.start, audio.source.start + sourceOffset);
        var right :- WithSource(content, audio.source.start + sourceOffset, audio.source.end);
        Ok((left, right))
  }

  // ----- alignment

  /** The source position heard at a project frame, in units of one source frame over projectFrames. */
  function SourcePosition(audio: AudioRegion, start: Frame, frame: int): int {
    var ratio := audio.playback.ratio;
    if audio.playback.reverse then audio.source.end * ratio.projectFrames - (frame - start) * ratio.sourceFrames
    else audio.source.start * ratio.projectFrames + (frame - start) * ratio.sourceFrames
  }

  /** Two regions play the same source position of the same asset at every project frame. */
  ghost predicate Aligned(a: AudioRegion, aStart: Frame, b: AudioRegion, bStart: Frame) {
    && a.asset == b.asset && a.playback == b.playback
    && forall frame: Frame :: SourcePosition(a, aStart, frame) == SourcePosition(b, bStart, frame)
  }

  lemma MapOffsetExact(audio: AudioRegion, delta: U64, mapped: U64)
    requires audio.playback.ratio.NonZero()
    ensures MapOffset(audio, delta) == Ok(mapped) <==>
      !audio.warped && delta * audio.playback.ratio.sourceFrames == audio.playback.ratio.projectFrames * mapped
  {
    SourceOffsetExact(audio.playback.ratio, delta, mapped);
  }

  /** The linear identity behind every aligned edit. */
  lemma ShiftIdentity(p: int, s: int, base: int, mapped: int, delta: int, offset: int)
    requires delta * s == p * mapped
    ensures (base + mapped) * p + (offset - delta) * s == base * p + offset * s
    ensures (base - mapped) * p - (offset - delta) * s == base * p - offset * s
  {}

  /** Moving the start of the content by what the edge moved keeps the map, forward or reverse. */
  lemma AdvanceAligned(content: ClipContent, delta: U64, start: Frame, newStart: Frame)
    requires content.AudioContent? && Mappable(content)
    requires newStart == start + delta
    requires AdvanceContent(content, delta).Ok?
    ensures AdvanceContent(content, delta).value.AudioContent?
    ensures Aligned(AdvanceContent(content, delta).value.audio, newStart, content.audio, start)
  {
    var audio, moved := content.audio, AdvanceContent(content, delta).value.audio;
    var mapped := MapOffset(audio, delta).value;
    MapOffsetExact(audio, delta, mapped);
    var ratio := audio.playback.ratio;
    forall frame: Frame ensures SourcePosition(moved, newStart, frame) == SourcePosition(audio, start, frame) {
      var base := if audio.playback.reverse then audio.source.end else audio.source.start;
      ShiftIdentity(ratio.projectFrames, ratio.sourceFrames, base, mapped, delta, frame - start);
    }
  }

  /** Moving the end of the content leaves the map untouched. */
  lemma RetreatAligned(content: ClipContent, delta: U64, start: Frame)
    requires content.AudioContent? && Mappable(content)
    requires RetreatContentEnd(content, delta).Ok?
    ensures RetreatContentEnd(content, delta).value.AudioContent?
    ensures Aligned(RetreatContentEnd(content, delta).value.audio, start, content.audio, start)
  {}

  /**
   * The exact-duration check says that the two ends of a placement of the given length, counted from any start, lie
   * on the two ends of the source range.
   */
  lemma ValidAudioMeansEndsMeet(audio: AudioRegion, start: Frame, len: U64)
    requires audio.playback.ratio.NonZero()
    ensures ValidAudio(audio, len) <==>
      && 0 <= audio.source.Len()
      && SourcePosition(audio, start, start + len)
         == (if audio.playback.reverse then audio.source.start else audio.source.end)
            * audio.playback.ratio.projectFrames
  {
    var ratio := audio.playback.ratio;
    EndsIdentity(ratio.projectFrames, audio.source.start, audio.source.end);
    if audio.source.Len() >= 0 {
      SourceOffsetExact(ratio, len, audio.source.Len());
    }
  }

  lemma EndsIdentity(p: int, start: int, end: int)
    ensures p * (end - start) == end * p - start * p
  {}

  /** The remaining duration maps to the remaining source. */
  lemma RemainderMaps(ratio: StretchRatio, total: U64, delta: U64, source: U64, mapped: U64)
    requires ratio.NonZero() && delta <= total
    requires ratio.SourceOffset(total) == Ok(source)
    requires ratio.SourceOffset(delta) == Ok(mapped)
    ensures mapped <= source && ratio.SourceOffset(total - delta) == Ok(source - mapped)
    ensures delta < total ==> mapped < source
    ensures 0 < delta ==> 0 < mapped
  {
    SourceOffsetExact(ratio, total, source);
    SourceOffsetExact(ratio, delta, mapped);
    if delta < total { SourceOffsetMonotone(ratio, delta, total); }
    if 0 < delta {
      SourceOffsetExact(ratio, 0, 0);
      SourceOffsetMonotone(ratio, 0, delta);
    }
    Distribute(total, 0 - delta, ratio.sourceFrames);
    Distribute(source, 0 - mapped, ratio.projectFrames);
    SourceOffsetExact(ratio, total - delta, source - mapped);
  }

  /** A trim is refused for one reason only: the moved edge falls between two source frames, or the clip is warped. */
  lemma TrimAcceptedExactlyOnSourceFrames(content: ClipContent, len: U64, delta: U64)
    requires content.AudioContent? && ValidAudio(content.audio, len) && delta < len
    ensures AdvanceContent(content, delta).Ok? <==> MapOffset(content.audio, delta).Ok?
    ensures RetreatContentEnd(content, delta).Ok? <==> MapOffset(content.audio, delta).Ok?
    ensures AdvanceContent(content, delta).Ok? ==> ValidAudio(AdvanceContent(content, delta).value.audio, len - delta)
    ensures RetreatContentEnd(content, delta).Ok? ==>
      ValidAudio(RetreatContentEnd(content, delta).value.audio, len - delta)
  {
    var audio := content.audio;
    if MapOffset(audio, delta).Ok? {
      RemainderMaps(audio.playback.ratio, len, delta, audio.source.Len(), MapOffset(audio, delta).value);
    }
  }

  /** The halves of a split partition the source range, keep the map, and pass the exact-duration check. */
  lemma SplitPartitionsSource(content: ClipContent, len: U64, start: Frame, at: Frame)
    requires content.AudioContent? && ValidAudio(content.audio, len)
    requires start < at && at - start < len
    ensures SplitContent(content, at - start).Ok? <==> MapOffset(content.audio, at - start).Ok?
    ensures SplitContent(content, at - start).Ok? ==>
      var (left, right) := SplitContent(content, at - start).value;
      && left.AudioContent? && right.AudioContent?
      && ValidAudio(left.audio, at - start)
      && ValidAudio(right.audio, len - (at - start))
      && Aligned(left.audio, start, content.audio, start)
      && Aligned(right.audio, at, content.audio, start)
      && var (first, second) :=
           if content.audio.playback.reverse then (right.audio.source, left.audio.source)
           else (left.audio.source, right.audio.source);
         && first.start == content.audio.source.start
         && first.start < first.end == second.start < second.end
         && second.end == content.audio.source.end
  {
    var audio, offset := content.audio, at - start;
    if MapOffset(audio, offset).Ok? {
      var mapped := MapOffset(audio, offset).value;
      RemainderMaps(audio.playback.ratio, len, offset, audio.source.Len(), mapped);
      AdvanceAligned(content, offset, start, at);
      var (left, right) := SplitContent(content, offset).value;
      assert right == AdvanceContent(content, offset).value;
      assert left.audio.source.Len() == mapped;
    }
  }

  /** A cut asks for a source frame, or for room in the offset that the right half counts from. */
  predicate CutsExactly(content: ClipContent, offset: U64)
    requires Mappable(content)
  {
    match content
    case AudioContent(audio) =>
      !audio.warped && (offset * audio.playback.ratio.sourceFrames) % audio.playback.ratio.projectFrames == 0
    case PatternContent(_, patternOffset, _) => patternOffset + offset <= U64_MAX
    case AutomationContent(_, automationOffset, _) => automationOffset + offset <= U64_MAX
  }

  lemma SplitSucceedsExactly(content: ClipContent, len: U64, offset: U64)
    requires Mappable(content) && offset <= len
    requires content.AudioContent? ==> ValidAudio(content.audio, len)
    ensures SplitContent(content, offset).Ok? <==> CutsExactly(content, offset)
  {
    if content.AudioContent? {
      var audio := content.audio;
      SourceOffsetNeverOverflowsInside(audio.playback.ratio, offset, len);
    }
  }

  // ----- slipping

  /** A slip is accepted exactly on a source frame of unwarped content whose shifted range stays addressable. */
  lemma SlipAcceptedExactly(content: ClipContent, delta: I64)
    requires content.AudioContent? && Mappable(content) && 0 <= content.audio.source.Len()
    ensures var ratio, source := content.audio.playback.ratio, content.audio.source;
      var shift := Abs(delta) * ratio.sourceFrames / ratio.projectFrames;
      SlipContent(content, delta).Ok? <==>
        && !content.audio.warped
        && (Abs(delta) * ratio.sourceFrames) % ratio.projectFrames == 0
        && (if delta < 0 then shift <= source.start else source.end + shift <= U64_MAX)
  {
    var ratio := content.audio.playback.ratio;
    QuotientNonNegative(Abs(delta) * ratio.sourceFrames, ratio.projectFrames);
  }

  lemma SlipIdentity(p: int, s: int, base: int, mapped: int, delta: int, offset: int)
    requires delta * s == p * mapped
    ensures (base + mapped) * p + offset * s == base * p + (offset + delta) * s
    ensures (base + mapped) * p - offset * s == base * p - (offset - delta) * s
  {}

  /**
   * A slipped region keeps the length of its source. Played forward it is heard at a frame as it was heard delta
   * frames later; played in reverse it is heard as it was heard delta frames earlier.
   */
  lemma SlipShiftsMap(content: ClipContent, delta: I64, start: Frame, frame: int)
    requires content.AudioContent? && Mappable(content)
    requires SlipContent(content, delta).Ok?
    ensures SlipContent(content, delta).value.AudioContent?
    ensures var slipped := SlipContent(content, delta).value.audio;
      && slipped == content.audio.(source := slipped.source)
      && slipped.source.Len() == content.audio.source.Len()
      && SourcePosition(slipped, start, frame)
         == SourcePosition(
              content.audio, start, if content.audio.playback.reverse then frame - delta else frame + delta)
  {
    var audio := content.audio;
    var ratio := audio.playback.ratio;
    var mapped: int := MapOffset(audio, Abs(delta)).value;
    MapOffsetExact(audio, Abs(delta), mapped);
    var signed: int := if delta < 0 then 0 - mapped else mapped;
    SignedMultiple(Abs(delta), ratio.sourceFrames, ratio.projectFrames, mapped);
    var base := if audio.playback.reverse then audio.source.end else audio.source.start;
    SlipIdentity(ratio.projectFrames, ratio.sourceFrames, base, signed, delta, frame - start);
  }

  lemma SignedMultiple(n: int, s: int, p: int, mapped: int)
    requires n * s == p * mapped
    ensures (0 - n) * s == p * (0 - mapped)
  {}

  /** Slipping back by the same distance restores the content. */
  lemma SlipBack(content: ClipContent, delta: I64)
    requires Mappable(content) && delta != I64_MIN
    requires content.AudioContent? ==> 0 <= content.audio.source.Len()
    requires SlipContent(content, delta).Ok?
    ensures Mappable(SlipContent(content, delta).value)
    ensures SlipContent(SlipContent(content, delta).value, -delta) == Ok(content)
  {}

  // ----- two trims in a row

  /** Offsets inside a valid clip: adding a mapped offset changes neither whether nor how another one maps. */
  lemma MapOffsetSum(audio: AudioRegion, len: U64, first: U64, second: U64)
    requires ValidAudio(audio, len) && first + second <= len
    requires MapOffset(audio, first).Ok?
    ensures MapOffset(audio, second).Ok? ==> MapOffset(audio, first).value + MapOffset(audio, second).value <= U64_MAX
    ensures MapOffset(audio, first + second) ==
      (if MapOffset(audio, second).Ok? then Ok(MapOffset(audio, first).value + MapOffset(audio, second).value)
       else MapOffset(audio, second))
  {
    SourceOffsetSum(audio.playback.ratio, len, first, second);
  }

  /** Two trims of the left edge are one: the same content, or the same refusal. */
  lemma AdvanceTwice(content: ClipContent, len: U64, first: U64, second: U64)
    requires content.AudioContent? && ValidAudio(content.audio, len) && first + second < len
    requires AdvanceContent(content, first).Ok?
    ensures Mappable(AdvanceContent(content, first).value)
    ensures AdvanceContent(AdvanceContent(content, first).value, second) == AdvanceContent(content, first + second)
  {
    TrimAcceptedExactlyOnSourceFrames(content, len, first);
    TrimAcceptedExactlyOnSourceFrames(content, len, first + second);
    var once := AdvanceContent(content, first).value;
    TrimAcceptedExactlyOnSourceFrames(once, len - first, second);
    MapOffsetSum(content.audio, len, first, second);
    assert MapOffset(once.audio, second) == MapOffset(content.audio, second);
  }

  lemma RetreatTwice(content: ClipContent, len: U64, first: U64, second: U64)
    requires content.AudioContent? && ValidAudio(content.audio, len) && first + second < len
    requires RetreatContentEnd(content, first).Ok?
    ensures Mappable(RetreatContentEnd(content, first).value)
    ensures RetreatContentEnd(RetreatContentEnd(content, first).value, second)
         == RetreatContentEnd(content, first + second)
  {
    TrimAcceptedExactlyOnSourceFrames(content, len, first);
    TrimAcceptedExactlyOnSourceFrames(content, len, first + second);
    var once := RetreatContentEnd(content, first).value;
    TrimAcceptedExactlyOnSourceFrames(once, len - first, second);
    MapOffsetSum(content.audio, len, first, second);
    assert MapOffset(once.audio, second) == MapOffset(content.audio, second);
  }
}
