# Verified model of the arrangement kernel and its set algebras

audec edits an arrangement of tracks and clips through small before/after operations, selects material with Boolean
terms that it compiles to unions of boxes, asks questions of a fact base with provenance, and passes invalidation
ranges and content addresses between its parts. This project states that logic in Dafny and proves what the program
relies on. It has seven parts.

* **The transactional editor** (`Arrangement`, `Normalization`, `UndoLaw`, `EditPlans`, `Sessions`, `EditEffects`,
  `EditRefusals`, `EditorRuns`, `Revisions`, `Kernel`, `Editor`). `UndoLaw` gives the exact condition under which the
  stored inverse of an arbitrary transaction restores the arrangement, and an input that misses it; `EditPlans` proves
  that all seventeen edit methods meet the condition; `EditEffects` says from the arguments of each edit what the
  tracks, the order, the clips and the markers are after it, and `EditRefusals` which edits are refused and for what;
  `EditorRuns` draws the consequences for every run; `Revisions` says when a revision number stands for an
  arrangement, and so when an unchanged editor holds what was saved; `Editor` is the class that changes its fields in
  place and refines the run model step by step.
* **Exact content edits** (`StretchRatios`, `ContentEdits`, `Fades`, `ClipEdits`): trims and splits keep the
  project-frame to source-frame map and the fade envelope, and splits partition the source. A slip keeps the length of
  the source and shifts the map by its distance, the opposite way for reversed audio. A stretch keeps the source range
  and gives it the new length. The envelope itself is stated at every offset.
* **Planner against kernel** (`Snap`, `MovePreview`, `PreviewMeanings`, `MoveAcceptance`, `PhraseSplit`,
  `Acceptance`): where a gesture sends every clip and what it reports, and that what a preview or a plan predicts is
  what the kernel does with it.
* **The aspect algebra** (`ChannelMasks`, `AspectRegions`, `AspectNormalization`, `AspectTerms`, `AspectEvaluation`,
  `AspectEvaluator`): normal forms, and agreement of the compiled boxes with the pointwise meaning of the term as
  written.
* **Queries** (`AirQueries`, `QueryMeanings`, `ResidualQueries`, `QueryCancellations`, `QueryRunners`): answers are the
  set meaning with exact premises, and a cancellation flag can only withhold an answer.
* **The explanation graph** (`ScopeRequirements`): the depth-first traversal succeeds exactly on graphs without
  reachable faults and collects exactly the reachable demands.
* **Encodings** (`ChangeSets`, `ContentAddresses`, `ActivationSpans`): canonical range lists, an injective byte
  preimage, and the longest covered stretch.

Code that the program writes as a loop or as an update in place is a method or a class here, proved equal to a
specification function; the laws are lemmas about that function. `Numbers`, `Outcomes`, `Arithmetic` and `Ordering` are
the shared vocabulary: 64-bit ranges and saturation, results and options, and the sorted duplicate-free lists that
ordered sets and maps iterate over.

Conventions. Signed and unsigned 64-bit values are `I64` and `U64`, subsets of `int`; every checked, saturating or
refused operation is written out. Fractions of a fade, gains and frequencies are `real`. Fade curves are arbitrary
functions of the phase with value 0 at 0 and 1 at 1. Placements are non-empty by type, which validation itself does
not check. The before and after images of one put describe the same identity (`KeepIdentities`).

Where the code does less than its names or a reader might promise, a lemma gives an input that shows it, and another
one gives the exact condition under which the promise is kept:

* A general transaction is not always undoable: normalization rewrites the clip lists of tracks and the track order,
  so an image that the inverse expects can be gone (`UndoLaw.UndoCanBeRefused`,
  `UndoLaw.UndoRestoresExactlyWhenImagesSurvive`).
* Undo takes revision numbers back and the next change uses them again, so a revision does not identify a state, and
  an editor that does not count as changed may not hold what was saved (`Revisions.CleanButChanged`). It does as long
  as no change since was applied at a lower revision (`Revisions.CleanMeansSaved`).
* The queries for facts that a proposal or a comparison does not explain admit the facts that its extent overlaps,
  because a residual selects the same geometry as the explanation (`src/aspect.rs:433-449`,
  `src/air_query.rs:202-261`; `ResidualQueries.ExplainedFactIsListed`,
  `ResidualQueries.ResidualMatchesItsNameExactly`).
* A phrase split is planned without looking at the source mapping, so a plan can be refused when it is lowered
  (`PhraseSplit.PlanCanBeRefused`, `PhraseSplit.PlannedPhraseLowers`).
* Lengths and offsets saturate at the ends of the 64-bit range. A clip longer than 2^63 - 1 frames is moved off its
  map by a far trim, or fails its checks after one (`ClipEdits.SaturatedTrimShifts`,
  `ClipEdits.TrimLeftKeepsAlignment`), and an edge pushed beyond the range misses its guide
  (`Snap.SaturatedMoveMisses`, `Snap.MovingEdgesLand`).

## Model

| member | source | states |
|---|---|---|
| Normalization.ClipIndexUnique | src/arrangement.rs:659-680 | a clip list that passes validation is already the list normalization would rebuild |
| Normalization.ListInOrder | src/arrangement.rs:672-680 | a validated list names the clips of its track by start, and those that start together by identity |
| Normalization.NormalizedOrderMatches | src/arrangement.rs:659-671 | the rebuilt track order lists every existing track exactly once |
| Normalization.NormalizedIdentity | src/arrangement.rs:659-680 | normalization leaves a valid state unchanged |
| Normalization.OrderReturnsExactly | src/arrangement.rs:659-671 | dropping some tracks and bringing them back restores the order if and only if they stood last in it, in ascending identity |
| Arrangement.FrameBounds.Len | src/arrangement.rs:95-97 | the length of a non-empty range is positive and exact, or the largest signed value where that is exceeded |
| Arrangement.TrimmedIsBetweenBlanks | src/arrangement.rs:230-244 | trimming a marker name takes away the blanks in front and behind, all of them and nothing else |
| UndoLaw.OperationAppliesExactly | src/arrangement.rs:810-886 | an operation applies if and only if it has an image, expects the stored one and leaves room for a later identity; then one entry changes and nothing else, and otherwise the refusal says which of these fails |
| UndoLaw.RedoReplays | src/arrangement.rs:1069-1084 | a transaction once accepted is accepted again on the same arrangement with later counters, with the same outcome |
| UndoLaw.SurvivalSuffices | src/arrangement.rs:1052-1067 | when the images survive normalization the inverse is accepted and brings back tracks, clips, order and markers |
| UndoLaw.UntouchedOrderReturnsExactly | src/arrangement.rs:659-671 | the order a transaction did not touch comes back if and only if the tracks it removes stand last, in ascending identity |
| UndoLaw.UndoRestoresExactlyWhenImagesSurvive | src/arrangement.rs:1052-1067 | for every accepted transaction, undo succeeds and restores the arrangement if and only if normalization leaves the touched tracks and the order as the transaction put them, where a transaction that leaves the order alone may remove only tracks that stand last in it, in ascending identity |
| UndoLaw.UndoCanBeRefused | src/arrangement.rs:659-680 | a new track and a clip on it in one transaction commit, and their inverse is refused as stale |
| EditPlans.EditableClip | src/arrangement.rs:1491-1497 | an editable clip is a stored clip, and validation has vouched for its fades and its source mapping |
| EditPlans.PlanNewAudioClip | src/arrangement.rs:1178-1202 | the plan ends by putting a clip under the next free identity and touches clips only |
| EditPlans.IndexOf | src/arrangement.rs:1135-1153 | the position found is the first place of the track in the order |
| EditPlans.MovedMatches | src/arrangement.rs:1135-1153 | reordering is a permutation of the tracks |
| EditPlans.ClipEditsSurvive | src/arrangement.rs:1178-1443 | transactions on clips and markers alone always survive normalization |
| EditPlans.NewTrackSurvives | src/arrangement.rs:1086-1109 | creating a track survives normalization |
| EditPlans.DeletedTrackSurvives | src/arrangement.rs:1111-1133 | deleting a track with all its clips survives normalization |
| EditPlans.ReplacedTrackSurvives | src/arrangement.rs:1445-1459 | replacing a track without touching its clip list survives normalization |
| EditPlans.ReorderedSurvives | src/arrangement.rs:1135-1153 | reordering tracks survives normalization |
| EditPlans.PlansKeepIdentities | src/arrangement.rs:1086-1475 | every edit method keeps the identity of what it replaces |
| EditPlans.PlansSurvive | src/arrangement.rs:1086-1475 | every edit method builds only transactions that undo can take back |
| EditEffects.EditHasItsEffect | src/arrangement.rs:1086-1475 | for all seventeen edits, once carried out: the tracks, their order, the clips and the markers are the old ones but for what the arguments say, written without the functions that plan the edit |
| EditEffects.PlanApplies | src/arrangement.rs:1086-1475 | what an edit plans is never stale, unless it clears a marker that is not there |
| EditEffects.RestKeepsEnvelope | src/arrangement.rs:1695-1697 | behind the cut of a trim or a split the clip sounds as the whole clip did, where its fades are cut from full ones and its length does not saturate |
| EditEffects.FrontKeepsEnvelope | src/arrangement.rs:1699-1701 | the same before the cut |
| EditRefusals.PlannedExactly | src/arrangement.rs:1086-1509 | an edit becomes a transaction if and only if the conditions on its arguments hold that the source checks, stated edit by edit |
| EditRefusals.AllowedEditHappens | src/arrangement.rs:1016-1050 | an edit that is not allowed is refused and changes nothing; one that is allowed is carried out, unless it would leave an invalid arrangement or no revision is left |
| EditRefusals.RefusalNamesFault | src/arrangement.rs:1086-1509 | whatever is refused before it becomes a transaction is refused for a fault that is there |
| Sessions.TransactLeavesCommitted | src/arrangement.rs:1016-1050 | an accepted transaction leaves the arrangement that its operations commit to, as a new entry of history, or leaves the session as it was, the latter only where that arrangement is the present one |
| Sessions.UndoFollows | src/arrangement.rs:1052-1067 | undo is never refused and steps one place back along an unchanged line of arrangements |
| Sessions.RedoFollows | src/arrangement.rs:1069-1084 | redo is never refused and steps one place forward along the same line |
| Sessions.LimitFollows | src/arrangement.rs:995-1006 | a history limit only cuts the line to a window around the present |
| Sessions.ChangeFollows | src/arrangement.rs:1016-1050 | a surviving change extends the line, forgets the undone future, and drops only the oldest places |
| Sessions.StepFollows | src/arrangement.rs:991-1084 | every command keeps the session on its line, and the identity counters never go back |
| EditorRuns.RunFollows | src/arrangement.rs:995-1084 | the same for every run of edits, undos, redos, history limits and saves |
| EditorRuns.RunsStayWalkable | src/arrangement.rs:962-1084 | every run from a valid state ends valid and with a history that can be walked |
| EditorRuns.HistoryNeverFails | src/arrangement.rs:1052-1084 | in no run is an undo or a redo refused |
| EditorRuns.UndosThenRedosReturn | src/arrangement.rs:1052-1084 | k undos and then k redos return to the same arrangement and the same history lengths |
| EditorRuns.EditsUndoneAndRedone | src/arrangement.rs:1016-1084 | k edits and k undos restore exactly the arrangement before them, and k redos exactly the one after them |
| EditorRuns.CreatedIsFresh | src/arrangement.rs:1499-1509 | an identity handed out is unused, present afterwards, and below the new counter |
| EditorRuns.ClipIdsIncrease | src/arrangement.rs:1499-1509 | clip identities handed out later in a run are strictly greater, whatever was undone in between |
| EditorRuns.TrackIdsIncrease | src/arrangement.rs:1499-1509 | the same for track identities |
| Revisions.RunsCount | src/arrangement.rs:1030-1084 | in every run the entries of undo and redo carry consecutive revisions around the present one |
| Revisions.StepKeepsRevision | src/arrangement.rs:991-1084 | no command changes which arrangement a revision of the line stands for, except a change applied below that revision |
| Revisions.RevisionIdentifies | src/arrangement.rs:983-1084 | a revision that comes up again stands for the same arrangement as long as no change in between was applied at a lower revision, so always where only history is walked |
| Revisions.CleanMeansSaved | src/arrangement.rs:987-993 | after saving, an editor that does not count as changed holds the saved arrangement, as long as no change since was applied below the saved revision |
| Revisions.CleanButChanged | src/arrangement.rs:987-1067 | put a marker, save, undo, put another marker: the editor does not count as changed and holds something else |
| Kernel.NormalizeIndexes | src/arrangement.rs:659-680 | the loops that rebuild order and clip lists compute the canonical indexes |
| Kernel.IndexClips | src/arrangement.rs:672-680 | the clip list of a track is its clips by start and then by identity |
| Kernel.Commit | src/arrangement.rs:1023-1028 | operations, one normalization, one validation; the first refusal decides and nothing changes |
| Editor.ArrangementEditor.FromState | src/arrangement.rs:966-977 | a valid state, and no other, opens an editor with empty history |
| Editor.ArrangementEditor.IsDirty | src/arrangement.rs:987-989 | whether the revision differs from the saved one |
| Editor.ArrangementEditor.MarkSaved | src/arrangement.rs:991-993 | the present revision becomes the saved one, and nothing else changes |
| Editor.ArrangementEditor.ForgetOldest | src/arrangement.rs:1044-1046 | the newest entries within the limit stay |
| Editor.ArrangementEditor.Apply | src/arrangement.rs:1016-1050 | the fields after any transaction, accepted or refused, by the specification that `Sessions.TransactLeavesCommitted` is about; history stays walkable when the images survive |
| Editor.ArrangementEditor.Undo | src/arrangement.rs:1052-1067 | the fields after undo; on a consistent editor it is never refused |
| Editor.ArrangementEditor.Redo | src/arrangement.rs:1069-1084 | the fields after redo; on a consistent editor it is never refused |
| Editor.ArrangementEditor.SetHistoryLimit | src/arrangement.rs:995-1006 | both stacks keep the entries nearest to the present |
| Editor.ArrangementEditor.Perform | src/arrangement.rs:1086-1475 | every edit method plans on the current state and applies it, what is carried out was allowed and has its effect, and the editor stays consistent |
| StretchRatios.ComputeGcd | src/arrangement.rs:754-759 | the loop computes the greatest common divisor |
| StretchRatios.GcdDivides | src/arrangement.rs:754-759 | it divides both arguments |
| StretchRatios.Bezout | src/arrangement.rs:754-759 | it is an integer combination of its arguments |
| StretchRatios.NewRatioIsCoprime | src/arrangement.rs:254-264 | construction keeps the ratio and delivers its coprime form |
| StretchRatios.SourceOffsetDefinedExactlyAtMultiples | src/arrangement.rs:275-282 | a reduced ratio maps an offset without a fraction exactly at the multiples of its denominator |
| StretchRatios.SourceOffsetExact | src/arrangement.rs:275-282 | the mapped value is the exact rational image, and conversely |
| StretchRatios.SourceOffsetAdditive | src/arrangement.rs:275-282 | images of mapped offsets add up |
| StretchRatios.SourceOffsetMonotone | src/arrangement.rs:275-282 | larger mapped offsets have strictly larger images |
| StretchRatios.SourceOffsetNeverOverflowsInside | src/arrangement.rs:275-282 | inside a mapped placement no offset overflows |
| StretchRatios.NewRatioMapsWholeClip | src/arrangement.rs:1178-1202 | the ratio of a new clip maps its whole placement to its whole source |
| StretchRatios.SourceOffsetSum | src/arrangement.rs:275-282 | adding a mapped offset changes neither whether nor how another offset maps |
| ContentEdits.AdvanceAligned | src/arrangement.rs:1512-1548 | moving the content start with the edge keeps the source position at every frame, forward and reverse |
| ContentEdits.ValidAudioMeansEndsMeet | src/arrangement.rs:696-706 | the exact-duration check of a length holds if and only if the two ends of that length meet the two ends of the source |
| ContentEdits.TrimAcceptedExactlyOnSourceFrames | src/arrangement.rs:1512-1575 | a trim is accepted if and only if the edge falls on a source frame of an unwarped clip, and the rest passes the duration check |
| ContentEdits.SplitPartitionsSource | src/arrangement.rs:1606-1632 | a cut within the checked length partitions the source, keeps the map in both halves, and leaves each the length it lasts |
| ContentEdits.SplitSucceedsExactly | src/arrangement.rs:1606-1632 | content can be cut if and only if the cut is on a source frame of unwarped audio, or the offset of pattern or automation content has room |
| ContentEdits.SlipAcceptedExactly | src/arrangement.rs:1577-1604 | a slip of audio is accepted if and only if its distance is on a source frame of unwarped content and the shifted range stays addressable |
| ContentEdits.SlipShiftsMap | src/arrangement.rs:1577-1604 | a slip keeps the source length and shifts the map by its distance: forward to what was heard later, in reverse to what was heard earlier |
| ContentEdits.SlipBack | src/arrangement.rs:1577-1604 | slipping back restores the content |
| ContentEdits.AdvanceTwice | src/arrangement.rs:1512-1548 | two left trims of the content are one, refusals included |
| ContentEdits.RetreatTwice | src/arrangement.rs:1550-1575 | two right trims of the content are one, refusals included |
| ClipEdits.TrimLeftKeepsAlignment | src/arrangement.rs:1299-1310 | an accepted left trim changes placement, content and fades only; it keeps the map, always for audio and otherwise exactly when the distance is representable, and the clip passes its checks exactly when no saturated length comes in |
| ClipEdits.SaturatedTrimShifts | src/arrangement.rs:1299-1310 | a pattern clip over all frames loses its map when it is trimmed to its last frame |
| ClipEdits.TrimRightKeepsAlignment | src/arrangement.rs:1313-1324 | an accepted right trim keeps the map, and the clip passes its checks exactly when no saturated length comes in |
| ClipEdits.SplitKeepsAlignment | src/arrangement.rs:1336-1369 | both halves keep the map, the right one exactly when the distance is representable; the halves cover the placement, and the right one passes the clip checks exactly when no saturated length comes in |
| ClipEdits.TrimLeftTwice | src/arrangement.rs:1299-1310 | two successive left trims give the clip, or the refusal, of the combined one, for audio of any length |
| ClipEdits.TrimRightTwice | src/arrangement.rs:1313-1324 | two successive right trims give the clip, or the refusal, of the combined one, for audio of any length |
| ClipEdits.SlipMovesContent | src/arrangement.rs:1327-1334 | a slip changes nothing but the content, passes the clip checks, is heard shifted by its distance, and is undone by slipping back |
| ClipEdits.StretchKeepsSource | src/arrangement.rs:1393-1417 | stretching changes the placement, the fades cut to it, and for audio the ratio, the algorithm and the pitch choice, the last two as asked; it keeps the source range and leaves a coprime ratio that maps the new length exactly |
| Fades.EnvelopeIs | src/arrangement.rs:426-448 | inside the clip the gain is the product of what the curves give at the linear phases of the two fades, cut to the range from 0 to 1; beyond it there is none |
| Fades.EnvelopeEnds | src/arrangement.rs:426-448 | full fades start and end in silence, and between the fades the gain is 1 |
| Fades.SplitFadesValid | src/arrangement.rs:1650-1693 | both halves of a cut pass fade validation and stay cut from full fades |
| Fades.CutKeepsEnvelope | src/arrangement.rs:1650-1701 | both halves have the original envelope, which `Fades.EnvelopeIs` describes, at every offset, the cut included |
| Fades.CutsKeepEnvelope | src/arrangement.rs:1650-1701 | so does every piece after any number of cuts |
| Fades.FullFadesSurviveCuts | src/arrangement.rs:334-342 | in particular for clips that start with full fades |
| Fades.TrimFadesLeftTwice | src/arrangement.rs:1695-1697 | two left trims leave the fades of the combined one |
| Fades.TrimFadesRightTwice | src/arrangement.rs:1699-1701 | two right trims leave the fades of the combined one |
| Acceptance.NeighboursDisjointSuffice | src/arrangement.rs:587-611 | comparing neighbours in start order finds every overlap |
| Acceptance.AcceptedExactlyWithoutRejectedOverlap | src/arrangement.rs:577-680 | a sound raw state validates after normalization if and only if no rejecting track holds two overlapping clips |
| Acceptance.ValidIsSound | src/arrangement.rs:539-633 | a valid state has no rejected overlap between any two clips |
| Acceptance.ValidMeansFits | src/arrangement.rs:539-706 | a state is valid if and only if every order lists its members once, lists are sorted and rejecting tracks free of overlap pair by pair, and every field is in its range, without the loops over neighbours |
| Snap.BestIsLeast | src/arrangement_interaction.rs:361-406 | the guide chosen is the least eligible candidate by distance, kind, frame and key, or there is none |
| Snap.ResolveFindsFirst | src/arrangement_interaction.rs:361-406 | resolving finds a guide in reach before which no other comes, and nothing exactly when none is in reach |
| Snap.KindsInOrder | src/arrangement_interaction.rs:361-406 | at equal distance the kinds of guides win in their listed order |
| Snap.GuidesInOrder | src/arrangement_interaction.rs:361-406 | distance decides first, within a kind and a clip the frame and then the key |
| Snap.GuideOrderIsIrrelevant | src/arrangement_interaction.rs:361-406 | the result does not depend on the order of the guides |
| Snap.GridGuidesEnclose | src/arrangement_interaction.rs:361-406 | the grid offers the two multiples that enclose a frame, negative frames included, if and only if both are addressable, and then no multiple is nearer |
| Snap.ComputeSnapMovingEdges | src/arrangement_interaction.rs:1142-1175 | the loop over clips and edges picks the specified edge |
| Snap.BestEdgeIsCheapest | src/arrangement_interaction.rs:1142-1188 | the chosen edge snap comes from some edge, no edge has a cheaper one, and among the cheapest it is of the lowest clip and of its earlier edge |
| Snap.MovingEdgesLand | src/arrangement_interaction.rs:1142-1175 | without an offered guide the move stays; otherwise the edge it was snapped by lands on its guide if and only if nothing saturates, and no edge is offered a guide nearer than the adjustment made |
| Snap.SaturatedMoveMisses | src/arrangement_interaction.rs:1142-1175 | a clip pushed beyond the last frame is snapped to a guide that none of its edges lands on |
| MovePreview.ComputeOverlaps | src/arrangement_interaction.rs:1479-1520 | the nested loops report the specified overlaps in order |
| MovePreview.ComputePreview | src/arrangement_interaction.rs:1055-1131 | the loop over the moving clips computes the specified preview, which `PreviewMeanings` is about |
| PreviewMeanings.CleanPreviewMoves | src/arrangement_interaction.rs:1055-1131 | without diagnostics every clip of the gesture moves, in order: the held clip to the track under the pointer or its own, every other as many places down the order, all by one number of frames |
| PreviewMeanings.MoveDeltaExactly | src/arrangement_interaction.rs:1055-1188 | that number is the raw motion, or the motion of the first of the nearest moving edges to the first guide in reach of it |
| PreviewMeanings.ShiftsExactly | src/arrangement_interaction.rs:1077-1085 | the number of places is that between the held clip's track and its goal, and there is none exactly where one of the two is not in the order |
| PreviewMeanings.PreviewSays | src/arrangement_interaction.rs:1087-1131 | a clip is moved if and only if it lands on a track of the order in addressable frames, and a diagnostic is reported if and only if its fault is there, a shifted place outside the order, locks, kinds and overlaps included |
| MoveAcceptance.CommittedMoves | src/arrangement_interaction.rs:1564-1575 | pointer-up commits exactly the moves that change something |
| MoveAcceptance.MovesLowerExactly | src/arrangement_actions.rs:437-475 | moves lower if and only if there are any and every clip is unlocked, where the gesture found it, and taken by both tracks; each becomes the change of its track and placement, and the first that cannot be made is refused for a fault of its own |
| MoveAcceptance.ClearExactlyWithoutOverlapDiagnostics | src/arrangement_interaction.rs:1479-1520 | nothing is reported exactly when no moved clip meets a standing one or another moved one |
| MoveAcceptance.PreviewPredictsKernel | src/arrangement_interaction.rs:1055-1131 | when nothing but overlaps is reported, the kernel accepts the moves if and only if nothing is reported, and puts every clip where the preview showed it |
| MoveAcceptance.CleanPreviewIsAccepted | src/arrangement_actions.rs:437-475 | a preview without diagnostics lowers and is accepted |
| PhraseSplit.ComputeDraft | src/arrangement_keyboard.rs:359-403 | the planner's loop computes the specified plan or the first refusal |
| PhraseSplit.DraftShape | src/arrangement_keyboard.rs:359-403 | one edit per selected clip in order, with consecutive predicted identities |
| PhraseSplit.BoundaryIsFirstGuide | src/arrangement_keyboard.rs:732-739 | the boundary is the proposed frame, unless a guide is in reach that lies on no edge of a selected clip; then it is the first such guide |
| PhraseSplit.PlanSucceedsExactly | src/arrangement_keyboard.rs:359-403 | a plan is made if and only if clips are selected, none locked or on a locked track, all hold the boundary inside, and identities are left for them |
| PhraseSplit.MissingReportedFirst | src/arrangement_keyboard.rs:359-403 | an empty selection and then the first missing clip are reported before anything else |
| PhraseSplit.DraftRefusalNamesFault | src/arrangement_keyboard.rs:359-403 | the first clip that cannot be planned is refused for a fault of its own, or no identity is left for it |
| PhraseSplit.RevealedReachesFurthest | src/arrangement_keyboard.rs:359-403 | what is to be shown reaches from the boundary to the furthest end of a selected clip |
| PhraseSplit.PhraseLowersExactly | src/arrangement_actions.rs:1288-1316 | a phrase of any splits lowers if and only if there are some, no clip is named twice, every one can be cut there, and identities are left |
| PhraseSplit.PlannedPhraseLowers | src/arrangement_actions.rs:1288-1316 | a plan lowers if and only if the boundary falls on a source frame of every unwarped audio clip, and every pattern and automation offset has room |
| PhraseSplit.PhraseApplies | src/arrangement_actions.rs:527-560 | no put of the phrase is stale when it is reached |
| PhraseSplit.PlannedSplitHappens | src/arrangement_actions.rs:1392-1423 | a lowered plan is accepted by the kernel if and only if no right half comes of a saturated length; then the identities and the primary predicted are the right halves created, each from the boundary to the old end |
| PhraseSplit.PlanCanBeRefused | src/arrangement_keyboard.rs:359-403 | half-speed audio of two frames is planned to be split in the middle, and refused when it is lowered |
| ChannelMasks.MasksAreChannelSets | src/aspect.rs:96-112 | mask operations are set operations on channels |
| AspectRegions.IntersectExact | src/aspect.rs:170-181 | intersecting boxes intersects their points |
| AspectRegions.SubtractExact | src/aspect.rs:584-638 | a difference is at most five valid boxes covering exactly the source without the removed box |
| AspectRegions.SubtractDisjoint | src/aspect.rs:584-638 | those boxes are pairwise disjoint |
| AspectRegions.PiecesInSlabs | src/aspect.rs:584-638 | the difference is cut in time first, within the shared time in frequency, and within both in channels |
| AspectRegions.SubtractAllExact | src/aspect.rs:567-582 | folding the difference is exact set difference |
| AspectRegions.IntersectEachExact | src/aspect.rs:547-565 | pairwise intersection is exact set intersection |
| AspectNormalization.RegionOrder | src/aspect.rs:162-168 | the derived order on boxes is total |
| AspectNormalization.RegionsInOrder | src/aspect.rs:162-168 | the first of start, end, low edge, high edge and channels in which two boxes differ decides |
| AspectNormalization.MergesExactly | src/aspect.rs:667-701 | two boxes merge if and only if they agree on two axes and leave no gap on the third |
| AspectNormalization.MergeExact | src/aspect.rs:667-701 | merging two boxes loses and adds nothing |
| AspectNormalization.NormalizeExact | src/aspect.rs:640-665 | normalization keeps every covered point and leaves valid, ascending, duplicate-free, unmergeable boxes |
| AspectNormalization.CanonicalIsNormal | src/aspect.rs:640-665 | such a list is left alone |
| AspectNormalization.NormalizeIdempotent | src/aspect.rs:640-665 | normalizing twice is normalizing once |
| AspectNormalization.ComputeFirstMerge | src/aspect.rs:649-658 | the two nested loops find the first pair that merges |
| AspectNormalization.NormalizeConcrete | src/aspect.rs:640-665 | the loop that merges to a fixpoint ends, and computes the canonical form |
| AspectTerms.TermOrder | src/aspect.rs:145-160 | the derived order on terms is total |
| AspectTerms.VariantsInOrder | src/aspect.rs:145-160 | the variants stand in the order of their declaration |
| AspectTerms.LeavesInOrder | src/aspect.rs:124-160 | leaves of one variant stand in the order of their fields |
| AspectTerms.ListsInOrder | src/aspect.rs:145-160 | lists of operands stand in the order of the first in which they differ, and before their extensions |
| AspectTerms.NormalizeIsNormal | src/aspect.rs:283-349 | a normal term has no unit below the root, no nested union or meet of the same kind, no double complement, nothing to absorb, and ascending distinct operands |
| AspectTerms.ProperShape | src/aspect.rs:283-349 | what a normal term is not: no operand of a union is a union, a unit, or a meet one of whose parts is an operand, and dually |
| AspectTerms.NormalIsFixed | src/aspect.rs:283-349 | a normal term is left alone |
| AspectTerms.NormalizeIdempotent | src/aspect.rs:283-349 | normalizing twice is normalizing once |
| AspectTerms.NormalizeKeepsMeaning | src/aspect.rs:283-349 | normalization keeps the truth of a term under every reading of its leaves |
| AspectTerms.AbsorptionKeepsUnion | src/aspect.rs:337-342 | dropping absorbed meets keeps the truth of a union of normal operands |
| AspectTerms.AbsorbIntersections | src/aspect.rs:337-342 | the retaining loop keeps what no operand absorbs |
| AspectTerms.AbsorbUnions | src/aspect.rs:344-349 | the same for meets |
| AspectEvaluation.EvalLeafExact | src/aspect.rs:372-449 | a leaf evaluates if and only if it resolves and is well formed, to its points within the universe |
| AspectEvaluation.EvalExact | src/aspect.rs:372-488 | evaluation of a term gives the points of the universe where it holds |
| AspectEvaluation.EvaluateIsPointwise | src/aspect.rs:351-363 | whenever evaluation succeeds, its boxes cover a point if and only if the universe does and the term as written holds there, for all nestings, and the boxes are canonical |
| AspectEvaluation.EvalSucceedsExactly | src/aspect.rs:372-506 | a term evaluates if and only if every leaf resolves and no two signal layers meet |
| AspectEvaluation.EvaluateSucceedsExactly | src/aspect.rs:351-363 | evaluation succeeds exactly over a valid non-empty universe, for such a normal form, and selects the one layer it mentions or the source |
| AspectEvaluation.SignalIsWhatTheTermNames | src/aspect.rs:351-449 | whenever evaluation succeeds, the signal is the explanation (the residual) of a reference if and only if the normal form has such a leaf, and the source if and only if it has neither |
| AspectEvaluation.EvaluateRefusalsAreReal | src/aspect.rs:372-527 | each refusal names a real fault: an invalid universe, a leaf that does not resolve or is malformed, or two different layers that the term names |
| AspectEvaluator.NormalizeTerm | src/aspect.rs:283-335 | the recursive normalization with its loops computes the specified normal form |
| AspectEvaluator.SubtractConcrete | src/aspect.rs:567-582 | the loops compute the normalized difference |
| AspectEvaluator.IntersectConcrete | src/aspect.rs:547-565 | the loops compute the normalized intersection |
| AspectEvaluator.EvaluateInner | src/aspect.rs:372-488 | the evaluator meets its specification, the first error included |
| AspectEvaluator.EvaluateAspect | src/aspect.rs:351-363 | the whole evaluation, on every term and resolver |
| AirQueries.FactsInOrder | src/air_query.rs:17-24 | facts stand in the order object, source, parameter, hypothesis, and within a kind by identity |
| QueryMeanings.OverlapMeansCommonPoint | src/air_query.rs:373-380 | the box test for overlap is the existence of a common point |
| QueryMeanings.PremisesKnown | src/air_query.rs:357-371 | a fact that satisfies a query has premises, all of them in the universe |
| QueryMeanings.EvalQueryMeans | src/air_query.rs:130-347 | without cancellation a query evaluates if and only if its selections do, and yields exactly its set meaning with exact premises |
| QueryMeanings.RunMeans | src/air_query.rs:98-128 | the answer lists in ascending order exactly the satisfying facts, each with its rule and its sorted, non-empty premises from the universe |
| QueryMeanings.NegationLaws | src/air_query.rs:262-347 | double negation and both De Morgan laws hold on the facts, failures included |
| ResidualQueries.ResidualSelectsExplained | src/air_query.rs:202-261 | the queries for what a proposal or a comparison does not explain admit the facts that its extent touches, failures included |
| ResidualQueries.ResidualMatchesItsNameExactly | src/air_query.rs:202-261 | they admit the facts it does not touch if and only if the reference does not resolve, or no fact is listed |
| ResidualQueries.ExplainedFactIsListed | src/air_query.rs:202-261 | a fact that the explanation covers in full is admitted |
| QueryCancellations.EvalQueryAlike | src/air_query.rs:130-347 | an evaluation depends only on the polls it makes |
| QueryCancellations.EvalQueryRefusal | src/air_query.rs:130-355 | a refusal that is no cancellation was reached with the flag unset |
| QueryCancellations.CancellationOnlyWithholds | src/air_query.rs:98-109 | with a flag that is never cleared, a run is refused as cancelled exactly when the flag is set by the last poll of the undisturbed run, and otherwise delivers what that run delivers |
| QueryRunners.CollectUniverse | src/air_query.rs:111-128 | the loops over kinds and facts collect the universe, poll by poll |
| QueryRunners.MergePremises | src/air_query.rs:357-371 | the loop merges premises, sorted and without repetition |
| QueryRunners.EvaluateQuery | src/air_query.rs:130-347 | evaluation with a live flag meets its specification, poll for poll |
| QueryRunners.RunQuery | src/air_query.rs:98-109 | a whole run with a live flag |
| ScopeRequirements.AddDemandsExactly | src/artifact_comparison_hydration.rs:484-503 | recording demands succeeds exactly when they agree on kinds, and adds exactly them |
| ScopeRequirements.Collect | src/artifact_comparison_hydration.rs:429-482 | the traversal ends on every finite graph and, when it succeeds, leaves the path set as it found it |
| ScopeRequirements.CollectExactly | src/artifact_comparison_hydration.rs:429-482 | for every path set and every earlier requirements: success exactly on traversable and agreeing graphs, with exactly the reachable demands added |
| ScopeRequirements.RequirementsExact | src/artifact_comparison_hydration.rs:356-363 | from the start: success if and only if nothing reachable is missing, cyclic or demanded under two kinds, and then the requirements are exactly the reachable demands |
| ScopeRequirements.RequiresWhatScopesAsk | src/artifact_comparison_hydration.rs:429-503 | a successful traversal requires a key of an artifact under a kind if and only if a reachable scope asks for it, stated for every scope |
| ScopeRequirements.CollectTruthful | src/artifact_comparison_hydration.rs:429-503 | each refusal names a real fault |
| ScopeRequirements.ScopeCollector.Add | src/artifact_comparison_hydration.rs:484-503 | the map after one demand, also on conflict |
| ScopeRequirements.ScopeCollector.CollectFrom | src/artifact_comparison_hydration.rs:429-482 | the traversal that inserts into and removes from its path set in place |
| ChangeSets.UnionOfRanges | src/change_set.rs:33-43 | two ranges have a union exactly when they touch, and it covers just their frames |
| ChangeSets.NormalizeRangesExact | src/change_set.rs:173-187 | normalization yields strictly separated ranges over exactly the given frames |
| ChangeSets.SeparatedUnique | src/change_set.rs:173-187 | strictly separated ranges are determined by their frames |
| ChangeSets.ComputeNormalizedRanges | src/change_set.rs:173-187 | sorting and one merging pass compute the canonical list |
| ChangeSets.MergeImpactExact | src/change_set.rs:81-90 | merged impacts touch exactly the frames either touches |
| ChangeSets.MergeImpactLaws | src/change_set.rs:81-90 | merging normalized impacts is commutative, associative and idempotent, with the whole bus absorbing |
| ChangeSets.CoversExactly | src/change_set.rs:92-99 | a normalized impact covers a range if and only if it touches every frame of it |
| ChangeSets.UnionLaws | src/change_set.rs:152-166 | the union of normalized change sets is commutative, associative, idempotent and normalized |
| ChangeSets.UnionAffects | src/change_set.rs:152-166 | a union affects exactly the frames one of its parts affects |
| ChangeSets.UnionCarries | src/change_set.rs:152-166 | a union has a domain, a bus or a routing change if and only if one of its parts has it |
| ChangeSets.ChangeSet.InvalidateRange | src/change_set.rs:118-124 | invalidating a range is a union with it |
| ChangeSets.ChangeSet.InvalidateRanges | src/change_set.rs:126-140 | invalidating ranges is a union with them, and no ranges leave no trace |
| ChangeSets.ChangeSet.InvalidateBus | src/change_set.rs:142-145 | invalidating a bus is a union with the whole of it |
| ChangeSets.ChangeSet.Merge | src/change_set.rs:152-161 | the loop over buses computes the union |
| ContentAddresses.BuildPreimage | src/artifact_catalog.rs:80-93 | the appending loop builds the specified byte string |
| ContentAddresses.PrefixIsTheTag | src/artifact_catalog.rs:80-93 | the string starts with the version tag, byte by byte, and a zero |
| ContentAddresses.PreimageRoundTrip | src/artifact_catalog.rs:80-93 | the byte string can be read back to the domain and the parts |
| ContentAddresses.PreimageInjective | src/artifact_catalog.rs:77-93 | equal byte strings come only from equal domains and equal part lists |
| ActivationSpans.StrongestActivationSpan | src/analysis.rs:464-508 | nothing exactly when no finite activation is positive; otherwise the earliest of the longest runs covered by the clipped footprints |
| ActivationSpans.StrongestIsUnique | src/analysis.rs:451-454 | there is only one such run |

## Left out

- Which of several validation errors is reported: validation is a predicate here and every failure is `ValidationFailed`.
- Labels of transactions and the transient selection: they do not influence the state.
- Warp markers are one flag per audio clip; their positions, channel mappings and loop modes other than off are absent.
- The sine of the equal-power curve: curves are arbitrary functions with the right end values.
- Rounding of `f32` and `f64`, negative zero and non-finite gains, band edges or phases: these values are reals. The floor of the span finder is exactly half the peak; the program halves in `f32`, which rounds odd multiples of 2^-149 below 2^-125.
- Marker names count and trim ASCII characters only.
- Frame addition in the span finder is unbounded; the program adds machine words.
- ClipEdits.TrimLeftTwice: for pattern and automation content it asks for a placement of at most 2^63 - 1 frames; what two trims of a longer one give together is not stated.
- ClipEdits.TrimRightTwice: the same for the right edge.
- MoveAcceptance.PreviewPredictsKernel: states what the arrangement operations do; lowering also moves sequencer placements of pattern clips, and is refused where such a placement is missing.
- MoveAcceptance.CleanPreviewIsAccepted: the same.
- PhraseSplit.PlannedPhraseLowers: states what the arrangement operations do; lowering also copies sequencer placements and asset usage, and is refused where they are missing.
- PhraseSplit.PlannedSplitHappens: the same.
- Revisions.CleanMeansSaved: a sufficient condition; after a change below the saved revision the content may still be equal by coincidence.
- The other planned phrase edits (trim, stretch, fades, repeat) and the other gestures: they reuse the same parts.
- Sorting and de-duplicating the diagnostics of a preview for display.
- Duplicating moves: the preview of a copying gesture is not related to the kernel.
- The list of contributing objects carried by an evaluated selection: it is provenance beside the geometry.
- Error messages: an unresolvable reference is reported by the leaf itself.
- Evidence links of facts, which no query reads.
- Cross-domain commands (mixer, bindings, sequencer, asset usage), catalog storage, rendering and the hash function itself.
- Artifact payloads, pins and digests around the requirement traversal.
