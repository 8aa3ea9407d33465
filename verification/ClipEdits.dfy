/** What each edit makes of one clip. */
module ClipEdits {
  import opened Numbers
  import opened Outcomes
  import opened Arithmetic
  import opened StretchRatios
  import opened Arrangement
  import opened Fades
  import opened ContentEdits

  type ClipResult = Result<Clip, ArrangementError>

  /** The part of validation that concerns one clip alone. */
  predicate SoundClip(clip: Clip) {
    && ValidFades(clip.fades, clip.placement.Len())
    && (clip.content.AudioContent? ==> ValidAudio(clip.content.audio, clip.placement.Len()))
  }

  /** What validation guarantees of all stored clips one by one. */
  predicate SoundClips(s: State) {
    && s.nextClipId > 0
    && forall id :: id in s.clips ==> SoundClip(s.clips[id]) && s.clips[id].id == id && id < s.nextClipId
  }

  lemma ValidSoundClips(s: State)
    requires Valid(s)
    ensures SoundClips(s)
  {
    forall id | id in s.clips ensures SoundClip(s.clips[id]) && s.clips[id].id == id && id < s.nextClipId {
      assert ValidClip(id, s.clips[id], s.tracks);
    }
  }

  /** The placement is short enough for its length to be represented without saturation. */
  predicate Measured(placement: FrameRange) {
    placement.end - placement.start <= I64_MAX
  }

  /** An in-range distance, as a saturating subtraction delivers it. */
  function Distance(from: Frame, to: Frame): U64
    requires from <= to
  {
    Saturate(to - from)
  }

  function TrimLeftClip(clip: Clip, newStart: Frame): (r: ClipResult)
    requires SoundClip(clip)
    ensures r.Ok? ==> r.value.id == clip.id
  {
    if newStart < clip.placement.start || newStart >= clip.placement.end then Err(InvalidTrim)
    else
      var delta := Distance(clip.placement.start, newStart);
      var content :- AdvanceContent(clip.content, delta);
      Ok(clip.(placement := FrameBounds(newStart, clip.placement.end),
               content := content,
               fades := TrimFadesLeft(clip.fades, clip.placement.Len(), delta)))
  }

  function TrimRightClip(clip: Clip, newEnd: Frame): (r: ClipResult)
    requires SoundClip(clip)
    ensures r.Ok? ==> r.value.id == clip.id
  {
    if newEnd <= clip.placement.start || newEnd > clip.placement.end then Err(InvalidTrim)
    else
      var removed := Distance(newEnd, clip.placement.end);
      var content :- RetreatContentEnd(clip.content, removed);
      Ok(clip.(placement := FrameBounds(clip.placement.start, newEnd),
               content := content,
               fades := TrimFadesRight(clip.fades, clip.placement.Len(), removed)))
  }

  function SlippedClip(clip: Clip, delta: I64): (r: ClipResult)
    requires SoundClip(clip)
    ensures r.Ok? ==> r.value.id == clip.id
  {
    var content :- SlipContent(clip.content, delta);
    Ok(clip.(content := content))
  }

  function SplitBoundaryOk(clip: Clip, at: Frame): bool {
    clip.placement.Contains(at) && at != clip.placement.start
  }

  /** The left half keeps the identity; the right half takes the given one. */
  function SplitClip(clip: Clip, at: Frame, rightId: ClipId): (r: Result<(Clip, Clip), ArrangementError>)
    requires SoundClip(clip) && SplitBoundaryOk(clip, at)
    ensures r.Ok? ==> r.value.0.id == clip.id && r.value.1.id == rightId
  {
    var leftLen := Distance(clip.placement.start, at);
    var contents :- SplitContent(clip.content, leftLen);
    var (leftFades, rightFades) := SplitFades(clip.fades, clip.placement.Len(), leftLen);
    Ok((clip.(placement := FrameBounds(clip.placement.start, at), content := contents.0, fades := leftFades),
        clip.(id := rightId, placement := FrameBounds(at, clip.placement.end), content := contents.1,
              fades := rightFades)))
  }

  function MovedClip(clip: Clip, track: TrackId, start: Frame): (r: ClipResult)
    ensures r.Ok? ==> r.value.id == clip.id
  {
    var placement :- FrameRangeFromLen(start, clip.placement.Len());
    Ok(clip.(trackId := track, placement := placement))
  }

  /** Resizing an audio clip keeps its source range and changes its ratio. */
  function StretchedClip(clip: Clip, newEnd: Frame, algorithm: StretchAlgorithm, preservePitch: bool)
    : (r: ClipResult)
    requires SoundClip(clip)
    ensures r.Ok? ==> r.value.id == clip.id
  {
    var placement :- NewFrameRange(clip.placement.start, newEnd);
    var fades := ClampFades(clip.fades, placement.Len());
    if !clip.content.AudioContent? then Ok(clip.(placement := placement, fades := fades))
    else if clip.content.audio.warped then Err(WarpedEditRequiresCompiler)
    else
      var audio := clip.content.audio;
      var ratio := NewRatio(audio.source.Len(), placement.Len());
      if ratio.Err? then Err(Stretch(ratio.error))
      else
        Ok(clip.(placement := placement, fades := fades, content := AudioContent(audio.(playback :=
          audio.playback.(ratio := ratio.value, algorithm := algorithm, preservePitch := preservePitch)))))
  }

  // ----- what stays aligned

  /** Two clips hear the same content at every project frame. */
  ghost predicate ContentAligned(a: Clip, b: Clip) {
    match (a.content, b.content)
    case (AudioContent(x), AudioContent(y)) => Aligned(x, a.placement.start, y, b.placement.start)
    case (PatternContent(p, x, l), PatternContent(q, y, m)) =>
      p == q && l == m && x - a.placement.start == y - b.placement.start
    case (AutomationContent(p, x, l), AutomationContent(q, y, m)) =>
      p == q && l == m && x - a.placement.start == y - b.placement.start
    case _ => false
  }

  /** The edge moved no further than a length can say. */
  predicate Reachable(from: Frame, to: Frame) {
    to - from <= I64_MAX
  }

  /**
   * Whether a clip still passes its checks after its left part was removed up to a frame. A clip whose length
   * saturates fails them: audio no longer lasts as long as its source, and a fade-out may be left without frames.
   */
  predicate RestSound(clip: Clip, from: Frame) {
    || Measured(clip.placement)
    || from == clip.placement.start
    || (!clip.content.AudioContent? && (from - clip.placement.start < I64_MAX || clip.fades.fadeOut.None?))
  }

  predicate FrontSound(clip: Clip, to: Frame) {
    || Measured(clip.placement)
    || to == clip.placement.end
    || (!clip.content.AudioContent? && (clip.placement.end - to < I64_MAX || clip.fades.fadeIn.None?))
  }

  /** A longer placement than the one that maps onto the source fails the duration check. */
  lemma OneLengthFits(audio: AudioRegion, len: U64, other: U64)
    requires ValidAudio(audio, len)
    ensures ValidAudio(audio, other) <==> len == other
  {
    if len < other && audio.playback.ratio.SourceOffset(other).Ok? {
      SourceOffsetMonotone(audio.playback.ratio, len, other);
    }
    if other < len && audio.playback.ratio.SourceOffset(other).Ok? {
      SourceOffsetMonotone(audio.playback.ratio, other, len);
    }
  }

  /** The fades behind a cut fit what is left, unless the cut takes every frame and leaves a fade-out without any. */
  lemma FadesBehind(fades: ClipFades, total: U64, cut: U64, rest: U64)
    requires ValidFades(fades, total) && cut <= total && total - cut <= rest
    ensures ValidFades(SplitFades(fades, total, cut).1, rest) <==> cut < total || fades.fadeOut.None?
  {
    SplitFadesValid(fades, total, cut);
  }

  /** The fades before a cut fit what is left, unless the cut leaves a fade-in without frames. */
  lemma FadesBefore(fades: ClipFades, total: U64, cut: U64, front: U64)
    requires ValidFades(fades, total) && cut <= total && cut <= front
    ensures ValidFades(SplitFades(fades, total, cut).0, front) <==> 0 < cut || fades.fadeIn.None?
  {
    SplitFadesValid(fades, total, cut);
  }

  /** A left trim of audio stops short of the length that its source lasts. */
  lemma AudioTrimReaches(content: ClipContent, len: U64, delta: U64)
    requires content.AudioContent? && ValidAudio(content.audio, len)
    requires AdvanceContent(content, delta).Ok? || RetreatContentEnd(content, delta).Ok?
    ensures delta < len
  {
    var ratio, mapped := content.audio.playback.ratio, MapOffset(content.audio, delta).value;
    if delta > len { SourceOffsetMonotone(ratio, len, delta); }
  }

  /**
   * An accepted left trim keeps the map, unless it moves the edge of pattern or automation content further than a
   * length can say. The clip passes its checks again exactly when no saturated length comes in.
   */
  lemma TrimLeftKeepsAlignment(clip: Clip, newStart: Frame)
    requires SoundClip(clip)
    requires TrimLeftClip(clip, newStart).Ok?
    ensures var after := TrimLeftClip(clip, newStart).value;
      && (ContentAligned(after, clip) <==> clip.content.AudioContent? || Reachable(clip.placement.start, newStart))
      && (SoundClip(after) <==> RestSound(clip, newStart))
      && after == clip.(placement := after.placement, content := after.content, fades := after.fades)
      && after.placement == FrameBounds(newStart, clip.placement.end)
  {
    var after := TrimLeftClip(clip, newStart).value;
    var total, delta := clip.placement.Len(), Distance(clip.placement.start, newStart);
    FadesBehind(clip.fades, total, delta, after.placement.Len());
    hide SplitFades, ValidFades;
    if clip.content.AudioContent? {
      AudioTrimReaches(clip.content, total, delta);
      AdvanceAligned(clip.content, delta, clip.placement.start, newStart);
      TrimAcceptedExactlyOnSourceFrames(clip.content, total, delta);
      OneLengthFits(after.content.audio, total - delta, after.placement.Len());
    }
  }

  /** A pattern clip over all addressable frames, trimmed to its last frame, no longer hears what it heard there. */
  lemma SaturatedTrimShifts()
    ensures var clip := Clip(
        1, 1, "Clip", FrameBounds(I64_MIN, I64_MAX), PatternContent(1, 0, false), NO_FADES, 0.0, false, false);
      && SoundClip(clip)
      && TrimLeftClip(clip, I64_MAX - 1).Ok?
      && !ContentAligned(TrimLeftClip(clip, I64_MAX - 1).value, clip)
  {
    var clip := Clip(
      1, 1, "Clip", FrameBounds(I64_MIN, I64_MAX), PatternContent(1, 0, false), NO_FADES, 0.0, false, false);
    TrimLeftKeepsAlignment(clip, I64_MAX - 1);
  }

  lemma TrimRightKeepsAlignment(clip: Clip, newEnd: Frame)
    requires SoundClip(clip)
    requires TrimRightClip(clip, newEnd).Ok?
    ensures var after := TrimRightClip(clip, newEnd).value;
      && ContentAligned(after, clip)
      && (SoundClip(after) <==> FrontSound(clip, newEnd))
      && after == clip.(placement := after.placement, content := after.content, fades := after.fades)
      && after.placement == FrameBounds(clip.placement.start, newEnd)
  {
    var after := TrimRightClip(clip, newEnd).value;
    var total, removed := clip.placement.Len(), Distance(newEnd, clip.placement.end);
    FadesBefore(clip.fades, total, total - removed, after.placement.Len());
    hide SplitFades, ValidFades;
    if clip.content.AudioContent? {
      AudioTrimReaches(clip.content, total, removed);
      RetreatAligned(clip.content, removed, clip.placement.start);
      TrimAcceptedExactlyOnSourceFrames(clip.content, total, removed);
      OneLengthFits(after.content.audio, total - removed, after.placement.Len());
    }
  }

  /** What a split leaves alone: identity and attributes, and placements that cover the whole. */
  ghost predicate HalvesOf(clip: Clip, at: Frame, rightId: ClipId, left: Clip, right: Clip) {
    && left.placement == FrameBounds(clip.placement.start, at)
    && right.placement == FrameBounds(at, clip.placement.end)
    && left == clip.(placement := left.placement, content := left.content, fades := left.fades)
    && right == clip.(id := rightId, placement := right.placement, content := right.content, fades := right.fades)
    && left.content.Kind() == clip.content.Kind() == right.content.Kind()
  }

  /**
   * Both halves of a split stay on the original map, the right one as long as the cut is within reach; the left half
   * always passes the clip checks, the right half exactly when no saturated length comes in.
   */
  lemma SplitKeepsAlignment(clip: Clip, at: Frame, rightId: ClipId)
    requires SoundClip(clip) && SplitBoundaryOk(clip, at)
    requires SplitClip(clip, at, rightId).Ok?
    ensures var (left, right) := SplitClip(clip, at, rightId).value;
      && (ContentAligned(right, clip) <==> Reachable(clip.placement.start, at))
      && ContentAligned(left, clip)
      && SoundClip(left) && (SoundClip(right) <==> RestSound(clip, at))
      && HalvesOf(clip, at, rightId, left, right)
  {
    var (left, right) := SplitClip(clip, at, rightId).value;
    var total, leftLen := clip.placement.Len(), Distance(clip.placement.start, at);
    FadesBefore(clip.fades, total, leftLen, leftLen);
    FadesBehind(clip.fades, total, leftLen, right.placement.Len());
    hide SplitFades, ValidFades;
    if clip.content.AudioContent? {
      if leftLen < total {
        SplitPartitionsSource(clip.content, total, clip.placement.start, at);
        OneLengthFits(right.content.audio, total - leftLen, right.placement.Len());
      } else {
        SplitAtWholeSource(clip, at, rightId);
      }
    }
  }

  /** The source that a mapped length stands for is passed in that length only. */
  lemma MappedLengthUnique(p: int, s: int, mapped: int, len: int, other: int)
    requires s > 0 && len * s == p * mapped
    ensures mapped * p == other * s <==> len == other
  {
    if mapped * p == other * s { EqualMultiples(s, len, other); }
  }

  /** The identity that relates the map of a source moved by a mapped length to the original map. */
  lemma MovedPosition(p: int, s: int, base: int, mapped: int, start: int, at: int, frame: int)
    ensures (base + mapped) * p + (frame - at) * s - (base * p + (frame - start) * s) == mapped * p - (at - start) * s
    ensures (base - mapped) * p - (frame - at) * s - (base * p - (frame - start) * s) == (at - start) * s - mapped * p
  {}

  /** A source moved by a mapped length stays on the map exactly when the clip starts that much later. */
  lemma MovedAlignedExactly(audio: AudioRegion, moved: AudioRegion, start: Frame, at: Frame, len: U64)
    requires ValidAudio(audio, len)
    requires moved == audio.(source := moved.source)
    requires audio.playback.reverse ==> moved.source.end == audio.source.end - audio.source.Len()
    requires !audio.playback.reverse ==> moved.source.start == audio.source.start + audio.source.Len()
    ensures Aligned(moved, at, audio, start) <==> len == at - start
  {
    var ratio, mapped := audio.playback.ratio, audio.source.Len();
    SourceOffsetExact(ratio, len, mapped);
    MappedLengthUnique(ratio.projectFrames, ratio.sourceFrames, mapped, len, at - start);
    var base := if audio.playback.reverse then audio.source.end else audio.source.start;
    forall frame: Frame
      ensures SourcePosition(moved, at, frame) == SourcePosition(audio, start, frame) <==> len == at - start
    {
      MovedPosition(ratio.projectFrames, ratio.sourceFrames, base, mapped, start, at, frame);
    }
    assert SourcePosition(moved, at, 0) == SourcePosition(audio, start, 0) <==> len == at - start;
  }

  /** A cut that saturates leaves the whole source to the left half. */
  lemma SplitAtWholeSource(clip: Clip, at: Frame, rightId: ClipId)
    requires SoundClip(clip) && SplitBoundaryOk(clip, at) && clip.content.AudioContent?
    requires SplitClip(clip, at, rightId).Ok?
    requires Distance(clip.placement.start, at) == clip.placement.Len()
    ensures var (left, right) := SplitClip(clip, at, rightId).value;
      && (ContentAligned(right, clip) <==> Reachable(clip.placement.start, at))
      && ContentAligned(left, clip)
      && ValidAudio(left.content.audio, left.placement.Len())
      && !ValidAudio(right.content.audio, right.placement.Len())
  {
    hide SplitFades, Aligned, SplitContent, ValidAudio, ValidFades;
    var (left, right) := SplitClip(clip, at, rightId).value;
    var audio, len, start := clip.content.audio, clip.placement.Len(), clip.placement.start;
    WholeSourceLeft(clip.content, len);
    assert left.content.audio == audio;
    AlignedToItself(audio, start);
    MovedAlignedExactly(audio, right.content.audio, start, at, len);
    EmptySourceLastsNothing(right.content.audio, right.placement.Len());
  }

  lemma EmptySourceLastsNothing(audio: AudioRegion, len: U64)
    requires audio.playback.ratio.NonZero() && audio.source.Len() == 0 && len > 0
    ensures !ValidAudio(audio, len)
  {
    if ValidAudio(audio, len) {
      SourceOffsetExact(audio.playback.ratio, 0, 0);
      SourceOffsetMonotone(audio.playback.ratio, 0, len);
    }
  }

  lemma AlignedToItself(audio: AudioRegion, start: Frame)
    ensures Aligned(audio, start, audio, start)
  {}

  lemma WholeSourceLeft(content: ClipContent, len: U64)
    requires content.AudioContent? && ValidAudio(content.audio, len) && SplitContent(content, len).Ok?
    ensures content.audio.playback.ratio.NonZero()
    ensures var (left, right) := SplitContent(content, len).value;
      && left == content && right.AudioContent?
      && right.audio == content.audio.(source := right.audio.source) && right.audio.source.Len() == 0
      && (if content.audio.playback.reverse then right.audio.source.end == content.audio.source.start
          else right.audio.source.start == content.audio.source.end)
  {}

  /**
   * Trimming the left edge to a and then to b is trimming it to b: the same clip, or the same refusal. For audio this
   * asks nothing of the length; other content must not saturate.
   */
  lemma TrimLeftTwice(clip: Clip, a: Frame, b: Frame)
    requires SoundClip(clip) && (clip.content.AudioContent? || Measured(clip.placement))
    requires a <= b < clip.placement.end
    requires TrimLeftClip(clip, a).Ok? && SoundClip(TrimLeftClip(clip, a).value)
    ensures TrimLeftClip(TrimLeftClip(clip, a).value, b) == TrimLeftClip(clip, b)
  {
    TrimLeftKeepsAlignment(clip, a);
    var len, first, second := clip.placement.Len(), Distance(clip.placement.start, a), Distance(a, b);
    if Measured(clip.placement) {
      TrimFadesLeftTwice(clip.fades, len, first, second);
      if clip.content.AudioContent? { AdvanceTwice(clip.content, len, first, second); }
    } else {
      TrimLeftNothing(clip);
    }
  }

  lemma TrimLeftNothing(clip: Clip)
    requires SoundClip(clip) && clip.content.AudioContent?
    requires TrimLeftClip(clip, clip.placement.start).Ok?
    ensures TrimLeftClip(clip, clip.placement.start).value == clip
  {
    SourceOffsetExact(clip.content.audio.playback.ratio, 0, 0);
    TrimFadesNothing(clip.fades, clip.placement.Len());
  }

  lemma TrimRightTwice(clip: Clip, a: Frame, b: Frame)
    requires SoundClip(clip) && (clip.content.AudioContent? || Measured(clip.placement))
    requires clip.placement.start < b <= a
    requires TrimRightClip(clip, a).Ok? && SoundClip(TrimRightClip(clip, a).value)
    ensures TrimRightClip(TrimRightClip(clip, a).value, b) == TrimRightClip(clip, b)
  {
    TrimRightKeepsAlignment(clip, a);
    var len, first, second := clip.placement.Len(), Distance(a, clip.placement.end), Distance(b, a);
    if Measured(clip.placement) {
      TrimFadesRightTwice(clip.fades, len, first, second);
      if clip.content.AudioContent? { RetreatTwice(clip.content, len, first, second); }
    } else {
      TrimRightNothing(clip);
    }
  }

  lemma TrimRightNothing(clip: Clip)
    requires SoundClip(clip) && clip.content.AudioContent?
    requires TrimRightClip(clip, clip.placement.end).Ok?
    ensures TrimRightClip(clip, clip.placement.end).value == clip
  {
    SourceOffsetExact(clip.content.audio.playback.ratio, 0, 0);
    TrimFadesNothing(clip.fades, clip.placement.Len());
  }

  /** What a slipped clip is heard as: forward the content delta frames later, in reverse delta frames earlier. */
  ghost predicate HeardShifted(after: Clip, before: Clip, delta: I64) {
    match (after.content, before.content)
    case (AudioContent(x), AudioContent(y)) =>
      && x.asset == y.asset && x.playback == y.playback
      && (forall frame: int, at: int {:trigger SourcePosition(x, after.placement.start, frame),
                                              SourcePosition(y, before.placement.start, at)} ::
           at == (if y.playback.reverse then frame - delta else frame + delta) ==>
           SourcePosition(x, after.placement.start, frame) == SourcePosition(y, before.placement.start, at))
    case (PatternContent(p, x, l), PatternContent(q, y, m)) => p == q && l == m && x == y + delta
    case (AutomationContent(p, x, l), AutomationContent(q, y, m)) => p == q && l == m && x == y + delta
    case _ => false
  }

  /** A slip moves the content under the clip, keeps it sound and as long, and slipping back undoes it. */
  lemma SlipMovesContent(clip: Clip, delta: I64)
    requires SoundClip(clip)
    requires SlippedClip(clip, delta).Ok?
    ensures var after := SlippedClip(clip, delta).value;
      && after == clip.(content := after.content)
      && SoundClip(after)
      && HeardShifted(after, clip, delta)
      && (clip.content.AudioContent? ==> after.content.audio.source.Len() == clip.content.audio.source.Len())
      && (delta != I64_MIN ==> SlippedClip(after, -delta) == Ok(clip))
  {
    var after, start := SlippedClip(clip, delta).value, clip.placement.start;
    if clip.content.AudioContent? {
      SlipShiftsMap(clip.content, delta, start, 0);
      forall frame: int, at: int |
        at == (if clip.content.audio.playback.reverse then frame - delta else frame + delta)
        ensures SourcePosition(after.content.audio, start, frame) == SourcePosition(clip.content.audio, start, at)
      {
        SlipShiftsMap(clip.content, delta, start, frame);
      }
    }
    if delta != I64_MIN { SlipBack(clip.content, delta); }
  }

  /** A fade keeps everything but its duration, which is cut to the length of the clip. */
  predicate CutTo(after: Option<Fade>, before: Option<Fade>, len: U64) {
    && (after.Some? <==> before.Some?)
    && (before.Some? ==>
         after == Some(before.value.(duration := if before.value.duration <= len then before.value.duration else len)))
  }

  /**
   * Stretching keeps the source range and leaves an exactly mapped clip of the new length. Apart from the placement,
   * the fades cut to it, and for audio the ratio, the algorithm and the pitch choice, the last two as asked, nothing
   * changes.
   */
  lemma StretchKeepsSource(clip: Clip, newEnd: Frame, algorithm: StretchAlgorithm, preservePitch: bool)
    requires SoundClip(clip)
    requires StretchedClip(clip, newEnd, algorithm, preservePitch).Ok?
    ensures var after := StretchedClip(clip, newEnd, algorithm, preservePitch).value;
      && SoundClip(after)
      && after.placement == FrameBounds(clip.placement.start, newEnd)
      && after == clip.(placement := after.placement, fades := after.fades, content := after.content)
      && CutTo(after.fades.fadeIn, clip.fades.fadeIn, after.placement.Len())
      && CutTo(after.fades.fadeOut, clip.fades.fadeOut, after.placement.Len())
      && (!clip.content.AudioContent? ==> after.content == clip.content)
      && (clip.content.AudioContent? ==>
           && after.content.AudioContent?
           && var playback := after.content.audio.playback;
              after.content.audio == clip.content.audio.(playback :=
                clip.content.audio.playback.(
                  ratio := playback.ratio, algorithm := algorithm, preservePitch := preservePitch)))
      && (clip.content.AudioContent? ==>
           && after.content.AudioContent?
           && after.content.audio.source == clip.content.audio.source
           && var ratio := after.content.audio.playback.ratio;
              Gcd(ratio.sourceFrames, ratio.projectFrames) == 1)
  {
    if clip.content.AudioContent? {
      var after := StretchedClip(clip, newEnd, algorithm, preservePitch).value;
      NewRatioMapsWholeClip(clip.content.audio.source.Len(), after.placement.Len());
      NewRatioIsCoprime(clip.content.audio.source.Len(), after.placement.Len());
    }
  }
}
