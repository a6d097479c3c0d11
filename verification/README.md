# Source-preserving merge kernel: model and proofs

This project models the part of the repository that has to keep every byte of its inputs accounted
for, and proves what that code promises.

* **Three-way owner merge.** `Documents`, `PhysicalLines`, `LineLayout`, `ByteEvidence`,
  `OwnerDecisions`, `OwnerMerge`, `OwnerMergeProperties`, `MergeRules`, `MergedText`, `SourceGaps`: a
  document is a byte string with an ordered list of structural owners. The merge classifies each owner,
  picks a baseline layout, copies gaps and owners into a buffer with a record of where each byte came
  from, and judges a reparse of the result. The reparse is an arbitrary function, so every statement
  holds for every reparse.
* **Directional (two-way) rendering.** `Directional`, `DirectionalRender`, `DirectionalProperties`,
  `DirectionalPlacement`, `DirectionalRules`: all current bytes plus each incoming-only owner once, with
  an independent checker of the byte segments.
* **Conflict-marker review.** `ConflictReview`, `ReviewLanguage`, `ReviewRoundTrip`, `ReviewErrors`: the
  line state machine over conflict markers, as a recognizer and as the inverse of a printer.
* **Lines, gaps and comments.** `LineDispositions`, `LayoutGaps`, `LayoutRules`, `Comments`,
  `CommentRules`, `CommentRegions`, `DocumentRegions`, `AugmentationProperties`, `CommentEvidence`,
  `LineAssignments`, `AssignmentRules`, `RegionIds` and the `...Properties` modules of four of them: one
  disposition per physical line, blank gaps and their controllers, the attachment of comments to owners,
  when two comment regions get one id, and the passage from the augmenters' output to line dispositions.
* **Matching.** `Matching`, `MatchingRules`: pairing template nodes with destination nodes by identity
  signatures.
* **Sharding.** `GreedyBound`, `Heap`, `ManifestShards`, `ShardProperties`, `RepositoryShards`: longest
  job first.
* **Publication inventory.** `Inventory`, `InventoryRules`: the depth-first, dependencies-first order of
  local packages.

`Wrappers`, `Sequences`, `Sorting`, `Text` and `Bytes` hold shared vocabulary.

## How the model is built

Code that changes state keeps that shape: the output buffers, the comment-region list and the
inventory's visitor are classes, the disposition slots and the shard table are arrays, and loops are
loops. Each method is proved against a specification function or predicate, and the lemmas are about
those. Sources are byte sequences with a concrete UTF-8 boundary test, where the original slices
strings; text that is only compared line by line is a sequence of characters. Digests are a function
parameter, and no statement depends on which function it is. Costs are natural numbers in
`ManifestShards`, where the original has integers, and nonnegative reals in `RepositoryShards`; the bound
in `GreedyBound` is proved for reals and carried over to the integers.

Each operation is described twice. Its method refines a specification function that follows the code's
own steps, and lemmas named `...IsExact` or `...AreExact` then say what that function returns in terms of
the inputs alone: owners, bytes, lines, comments and boundaries, without the steps.

What the proofs say beyond the individual functions:

* In `merge_owners` the comparison of whole layouts has a branch for a changed owner order. It cannot be
  reached: a changed order of common owners is a changed owner list (`OrderChangeIsMembershipChange`).
* The "invalid byte evidence" error after a clean merge, and the rejection by the segment checker inside
  the directional renderer, cannot happen (`MergeWithEvidence`, `RenderDirectionalOwners`).
* The three-way merge compares the reparsed owners and layout with the plan, but not the reparsed source
  with the output; the directional renderer compares both. `CleanMergeIsDiff3` is therefore about the
  document the reparse returns, `CleanMergeBytes` about the output.
* The layout of the stable owners forgets the gaps between the last stable owner and the suffix. It is
  the unmanaged source exactly when those gaps are empty (`StableLayoutIsUnmanaged`).
* The gaps the layout augmenter reports are accepted as line dispositions exactly when none of them
  reaches into an owner. On lines and owners this says that no blank run next to an owner overlaps an owner
  (`ClearRunsAreAccepted`). Owners that neither start nor end with a blank line are always safe
  (`FirmOwnersAreAccepted`), and `BlankFirstLineIsRefused` shows an owner that is not.
* The comment augmenter's output does not always pass the assignment checks of the line dispositions: two
  full-line comments on one line above an owner on a blank line give two regions with one id
  (`RemarksAreRefused`). It passes exactly when no two owners' upward searches take comments from the same
  first to the same last line (`AugmenterOutputIsAssigned`); only such leading regions can share an id. The
  searches differ whenever a line that is neither blank nor carries an owner-scoped full-line comment
  stands between each doubled comment line above an owner and the next owner (`GuardedSearchesDiffer`), so
  also when each owner contains such a line, or when no line carries two such comments
  (`SolidOwnersAreGuarded`, `SingleLinesAreGuarded`). `UnguardedLineCollides` is the whole family around
  the counterexample.

## Model

| member | source | states |
|---|---|---|
| Documents.Validate | crates/ast-merge/src/declaration_merge.rs:48-71 | accepts exactly the valid documents, otherwise names the first failing check of the first failing owner |
| Documents.LayoutSegments | crates/ast-merge/src/declaration_merge.rs:77-86 | returns every byte outside the owners, one gap per slot |
| Documents.SourceIsWoven | crates/ast-merge/src/declaration_merge.rs:77-86 | gaps and owners, interleaved, are the source |
| Documents.RecutWoven | crates/ast-merge/src/declaration_merge.rs:77-86 | cutting an interleaving of gaps and owners at the new owner offsets gives back those gaps |
| SourceGaps.SourceLayoutGaps | crates/ast-merge/src/layout.rs:25-53 | succeeds just on valid documents, with one slot per owner and a suffix: exact range, digest, neighbours and controller |
| SourceGaps.EveryByteHasOnePlace | crates/ast-merge/src/layout.rs:25-53 | every byte is in exactly one owner or exactly one gap, never in both |
| SourceGaps.ControllerTouchesGap | crates/ast-merge/src/layout.rs:17-19 | a gap has a controller just when there is an owner, and the controller is an owner adjacent to the gap |
| SourceGaps.NeighboursAreExact | crates/ast-merge/src/layout.rs:25-53 | the owner that starts where a gap ends is named after it and controls it; without one, the owner that ends where it starts does |
| PhysicalLines.LineStartsAreOffsets | crates/ast-merge/src/declaration_merge.rs:533-562 | the line starts found by scanning are the offsets of the lines that splitting yields |
| PhysicalLines.PhysicalRangeIsLines | crates/ast-merge/src/declaration_merge.rs:533-562 | an owner's physical range is exactly the concatenation of its declared lines and contains its bytes |
| PhysicalLines.LineRangesAreSliceable | crates/ast-merge/src/declaration_merge.rs:533-562 | such a range lies inside the source and cuts at character boundaries |
| LineLayout.LayoutSegmentsForIds | crates/ast-merge/src/declaration_merge.rs:485-516 | succeeds just when the owners' lines are separate, and then yields the segments that the stable owners cut out |
| LineLayout.LineViewIsByteView | crates/ast-merge/src/declaration_merge.rs:33-45 | the gaps between complete owner lines concatenate to exactly the source lines outside every owner |
| LineLayout.LinesRebuildSource | crates/ast-merge/src/declaration_merge.rs:485-516 | gaps and complete owner lines, interleaved, are the source |
| LineLayout.FullLayoutIsUnmanaged | crates/ast-merge/src/declaration_merge.rs:485-516 | over all owner ids, the segments concatenate to the unmanaged source |
| LineLayout.StableLayoutIsUnmanaged | crates/ast-merge/src/declaration_merge.rs:485-516 | over chosen ids they do so if and only if nothing stands between the last chosen owner and the suffix |
| ByteEvidence.VerifySourceByteSegments | crates/ast-merge/src/byte_evidence.rs:29-61 | accepts exactly the evidence that holds, otherwise reports the first failure in the order of the checks |
| ByteEvidence.EvidenceIsConcatenation | crates/ast-merge/src/byte_evidence.rs:29-61 | accepted evidence makes the output the concatenation of the named source slices and nothing else |
| ByteEvidence.RenderBuffer.AppendSourceSegment | crates/ast-merge/src/byte_evidence.rs:64-86 | appends the slice with one exact segment; an empty slice changes nothing |
| ByteEvidence.AppendKeepsEvidence | crates/ast-merge/src/byte_evidence.rs:64-86 | evidence that holds still holds after an append |
| OwnerDecisions.ClassifyIsDiff3 | crates/ast-merge/src/declaration_merge.rs:564-606 | the classifier is diff3 on optional fingerprints: conflict just on a clash, a selected side is present and carries the kept value |
| OwnerDecisions.CollectOwnerIds | crates/ast-merge/src/declaration_merge.rs:457-469 | the ids of base, ours, theirs, each at its first occurrence |
| OwnerDecisions.DecideOwners | crates/ast-merge/src/declaration_merge.rs:216-258 | the loop computes one decision per id, the map of selected sides and the conflicts |
| OwnerDecisions.EveryOwnerDecidedOnce | crates/ast-merge/src/declaration_merge.rs:216-258 | exactly the known identities are decided, each once, under distinct decision ids |
| OwnerMerge.CompareLayouts | crates/ast-merge/src/declaration_merge.rs:282-331 | the layout comparison with its four cases and its error |
| OwnerMerge.OrderChangeIsMembershipChange | crates/ast-merge/src/declaration_merge.rs:302-331 | an owner order change implies a changed owner list, so one branch is dead |
| OwnerMerge.RenderBaseline | crates/ast-merge/src/declaration_merge.rs:333-380 | the buffer spells baseline gaps and selected owners with evidence; the expected owners are recorded in order |
| OwnerMerge.RenderAdditions | crates/ast-merge/src/declaration_merge.rs:381-405 | appends the complete lines of each owner only theirs added, or fails just when one has no readable lines |
| OwnerMerge.CheckRender | crates/ast-merge/src/declaration_merge.rs:407-450 | the verdict on the reparse: every check and its error, in order |
| OwnerMerge.MergeOwners | crates/ast-merge/src/declaration_merge.rs:166-451 | the whole merge refines its specification, for every reparse, and a clean output carries evidence that holds |
| OwnerMerge.MergeWithEvidence | crates/ast-merge/src/declaration_merge.rs:135-164 | the evidence check never replaces a clean outcome; a clean output is the concatenation of named source slices; other outcomes carry no segments |
| OwnerMergeProperties.ConflictsAreClashes | crates/ast-merge/src/declaration_merge.rs:222-258 | an identity is reported as a conflict exactly when its three fingerprints clash |
| OwnerMergeProperties.ConflictOutcomeIsClash | crates/ast-merge/src/declaration_merge.rs:216-258 | without a whole-source answer the merge conflicts exactly when some identity clashes |
| OwnerMergeProperties.CleanMergeIsDiff3 | crates/ast-merge/src/declaration_merge.rs:337-429 | for every reparse, a clean merge by owners maps every identity to exactly its diff3 fingerprint or absence |
| OwnerMergeProperties.CleanMergeOrder | crates/ast-merge/src/declaration_merge.rs:337-429 | its owners are the baseline's, then those only theirs added, without repetition |
| OwnerMergeProperties.CleanMergeBytes | crates/ast-merge/src/declaration_merge.rs:333-405 | its bytes are the baseline gaps woven with the selected owners, then the added lines |
| OwnerMergeProperties.CleanMergeKeepsLayout | crates/ast-merge/src/declaration_merge.rs:302-331 | its layout is the one both tips agree on, and the base's unless the owners were reordered |
| OwnerMergeProperties.AlignedMergeIsClean | crates/ast-merge/src/declaration_merge.rs:286-450 | equal owner lists, no clash, equal layouts and a reparse that finds the rendered owners make every check pass; re-cutting the output gives back the layout |
| OwnerMergeProperties.NoClashIsNoConflict | crates/ast-merge/src/declaration_merge.rs:222-258 | the conflict list is empty exactly when no identity clashes |
| OwnerMergeProperties.SwapKeepsConflicts | crates/ast-merge/src/declaration_merge.rs:182-258 | exchanging the tips takes the same whole-source bytes, or conflicts on exactly the same owners |
| OwnerMergeProperties.SwapKeepsMeaning | crates/ast-merge/src/declaration_merge.rs:182-258 | when both orders merge cleanly they agree on every owner's fingerprint |
| OwnerMergeProperties.WholeSourceIsTaken | crates/ast-merge/src/declaration_merge.rs:189-215 | for every reparse, a source that only one tip changed is the result, as are equal tips: ours if theirs equals the base, theirs if ours does |
| OwnerMergeProperties.SelectionIsRecorded | crates/ast-merge/src/declaration_merge.rs:182-215 | the record says which sources are equal and which tip was taken whole |
| OwnerMergeProperties.OwnersDecideTheRest | crates/ast-merge/src/declaration_merge.rs:189-215 | owners are looked at exactly when all three sources differ |
| MergeRules.KindsAreExact | crates/ast-merge/src/declaration_merge.rs:564-606 | each of the decision kinds has an if-and-only-if on which versions exist and which fingerprints are equal |
| MergeRules.ReportsAreExact | crates/ast-merge/src/declaration_merge.rs:222-258 | a conflict and a decision show the owner's path and, under each revision, exactly that revision's version |
| MergeRules.BaselineIsExact | crates/ast-merge/src/declaration_merge.rs:260-281 | the kept layout is ours if exactly its owners are kept, else theirs if exactly its are, else ours if at least its are, else none |
| MergeRules.AdditionsAreExact | crates/ast-merge/src/declaration_merge.rs:381-405 | appended are, in order, the kept owners of theirs that ours does not have |
| MergeRules.BytesAreExact | crates/ast-merge/src/declaration_merge.rs:337-380 | an owner's bytes are theirs exactly when theirs changed or added it and ours left it as in the base, else ours |
| MergeRules.RefusalsAreExact | crates/ast-merge/src/declaration_merge.rs:260-331 | the refusals before rendering: membership, order and layout, each with its condition on the three documents |
| MergeRules.CleanIsExact | crates/ast-merge/src/declaration_merge.rs:333-451 | a merge that is not refused is clean exactly when the reparse of the planned text confirms its owners and its layout |
| MergeRules.JudgementIsExact | crates/ast-merge/src/declaration_merge.rs:407-450 | every verdict on a reparse has its own condition, in the order of the checks |
| MergedText.PlanIsSliceable | crates/ast-merge/src/declaration_merge.rs:337-405 | between texts, every planned piece of the merge starts and ends at a character boundary of its source, so no slice panics |
| MergedText.CleanOutputIsText | crates/ast-merge/src/declaration_merge.rs:166-451 | for every reparse, the clean output of a merge of three texts is valid UTF-8 |
| Directional.VerifyDirectionalSegments | crates/ast-merge/src/directional_render.rs:50-104 | accepts exactly the segments that hold |
| Directional.CurrentIsConserved | crates/ast-merge/src/directional_render.rs:50-104 | in accepted output, deleting the incoming stretches leaves exactly the current bytes |
| Directional.SegmentsTile | crates/ast-merge/src/directional_render.rs:50-104 | output ranges tile the output and current source ranges follow one another |
| Directional.RenderBuffer.Append | crates/ast-merge/src/directional_render.rs:106-126 | appends the slice with one exact segment; an empty slice changes nothing |
| Directional.AppendAccounts | crates/ast-merge/src/directional_render.rs:106-126 | appending current text where it stands, or incoming text, keeps the segments acceptable so far |
| DirectionalRender.ClassifyDirectionalOwners | crates/ast-merge/src/owner_merge2.rs:90-160 | succeeds exactly on comparable inputs, with one numbered decision per identity in current-then-incoming order, each with its path, action and source regions, and with both owner orders and both layouts |
| DirectionalRender.LayoutSpellsGaps | crates/ast-merge/src/owner_merge2.rs:67-83 | the layout regions are nonempty, under the source's name and digest, and spell exactly the bytes outside the owners |
| DirectionalRender.SortedNeighboursDecide | crates/ast-merge/src/directional_render.rs:183-186 | comparing sorted neighbours decides whether any two insertion ranges meet |
| DirectionalRender.CheckPlan | crates/ast-merge/src/directional_render.rs:143-186 | accepts exactly the plans that place every incoming-only owner once, in disjoint ranges holding one owner each |
| DirectionalRender.RenderDirectionalOwners | crates/ast-merge/src/directional_render.rs:133-252 | succeeds exactly on renderable plans that the reparse confirms; the incoming stretches stand at the planned offsets in the planned order; output, segments and owner order are the planned ones; the inner segment check never fails |
| DirectionalProperties.EmittedIsPlanned | crates/ast-merge/src/directional_render.rs:191-230 | the slots share out the plan: no insertion is dropped, none is placed twice |
| DirectionalProperties.IncomingEmittedOnce | crates/ast-merge/src/directional_render.rs:183-230 | the emitted incoming ranges are exactly the planned ones and pairwise apart |
| DirectionalProperties.OwnershipIsComplete | crates/ast-merge/src/directional_render.rs:191-250 | the owner order restricted to current ids is the current order; every incoming-only owner occurs once and no other incoming owner does |
| DirectionalPlacement.InsertionsLand | crates/ast-merge/src/directional_render.rs:191-230 | every incoming stretch of a render is a planned range that stands behind exactly the planned offset of the current source, and every planned one is there |
| DirectionalPlacement.InsertionsKeepOrder | crates/ast-merge/src/directional_render.rs:191-230 | insertions of one slot appear in plan order |
| DirectionalPlacement.CurrentTextBefore | crates/ast-merge/src/directional_render.rs:191-230 | without the incoming stretches, the output before an insertion is exactly the current source up to its offset |
| DirectionalPlacement.InsertedOwnerStandsInSlot | crates/ast-merge/src/directional_render.rs:191-250 | in the owner order an inserted owner stands after every current owner before its anchor and before its anchor |
| DirectionalPlacement.AcceptedOffsets | crates/ast-merge/src/directional_render.rs:196-203 | offsets are accepted exactly when each lies in the gap of its own anchor, at a character boundary, and those of one anchor do not decrease |
| DirectionalRules.ComparableIsExact | crates/ast-merge/src/owner_merge2.rs:96-130 | two sides are comparable exactly when their roles, identities and bytes fit, both are valid, and owners of one id have one path |
| DirectionalRules.DecisionsAreExact | crates/ast-merge/src/owner_merge2.rs:118-150 | each action has an if-and-only-if on which sides have the owner and on its bytes; path and both regions are the owner's own |
| DirectionalRules.DecisionOrder | crates/ast-merge/src/owner_merge2.rs:114-121 | decided are the current owners in their order, then the incoming-only ones in theirs |
| DirectionalRules.PlanIsExact | crates/ast-merge/src/directional_render.rs:143-186 | a plan is accepted exactly when each insertion carries one whole incoming-only owner and no byte of another, each such owner is carried once, and no incoming byte twice |
| DirectionalRules.ConfirmationIsExact | crates/ast-merge/src/directional_render.rs:232-246 | the reparse confirms a render exactly when it reads the same text with the planned owner order and every current and incoming-only owner unchanged in path, fingerprint and bytes |
| MergedText.PlannedPiecesCut | crates/ast-merge/src/directional_render.rs:191-230 | every piece of a renderable plan starts and ends at a character boundary of its source |
| MergedText.DirectionalOutputIsText | crates/ast-merge/src/directional_render.rs:106-252 | between two texts the directional render is valid UTF-8 |
| ConflictReview.ReviewConflicts | crates/ast-merge-git/src/conflict_review.rs:77-174 | the one-pass loop computes the state machine's outcome: limits, error lines and regions |
| ReviewLanguage.ReviewAcceptsLanguage | crates/ast-merge-git/src/conflict_review.rs:89-174 | within the limits a review succeeds if and only if the marker lines are complete conflicts, one after another, within the region limit |
| ReviewLanguage.AcceptsLanguage | crates/ast-merge-git/src/conflict_review.rs:107-157 | the marker automaton accepts exactly the language of repeated open, optional base, separator, close |
| ReviewLanguage.RegionsAreFramed | crates/ast-merge-git/src/conflict_review.rs:107-157 | each region's sides are the plain lines between its markers, in order, and every marker line belongs to a region |
| ReviewLanguage.RegionsIncrease | crates/ast-merge-git/src/conflict_review.rs:145-154 | regions increase and do not overlap |
| ReviewRoundTrip.BlocksRoundTrip | crates/ast-merge-git/src/conflict_review.rs:89-174 | a review of printed blocks reports exactly their conflicts, and the ranges slice back to the printed sides |
| ReviewRoundTrip.PrintedMarkReads | crates/ast-merge-git/src/conflict_review.rs:57-71 | a printed marker line reads back as its marker, with LF, CRLF or no line end, and after a byte-order mark |
| ReviewRoundTrip.MarkerLinesAreExact | crates/ast-merge-git/src/conflict_review.rs:57-71 | a line reads as a marker if and only if it is an optional byte-order mark at the start of the source, exactly the marker size of the kind's byte, a label that is empty or starts with a blank and never follows a separator, and a line end |
| ReviewRoundTrip.ReviewRoundTrips | crates/ast-merge-git/src/conflict_review.rs:89-174 | printing any plain and conflict blocks and reviewing them gives one region per conflict with exactly the printed sides |
| ReviewRoundTrip.BomKeepsConflicts | crates/ast-merge-git/src/conflict_review.rs:97-99 | a byte-order mark changes no conflict side |
| ReviewErrors.ErrorsAreExact | crates/ast-merge-git/src/conflict_review.rs:77-174 | a refusal names the first line whose marker no later text could complete, the opening that exceeds the conflict limit, or the opening that is never closed |
| ReviewErrors.UnterminatedNamesOpening | crates/ast-merge-git/src/conflict_review.rs:158-166 | the conflict that is open at the end is named by its opening line |
| ReviewErrors.LimitsComeFirst | crates/ast-merge-git/src/conflict_review.rs:78-88 | byte limit, marker size and encoding are checked first, in this order, each refusal with its exact condition |
| LineDispositions.SourceLineDispositions | crates/ast-merge/src/comment_layout_emission.rs:332-527 | refuses at the first stage whose facts do not fit, and otherwise returns the record that the facts give each line |
| LineDispositions.PlaceOwner | crates/ast-merge/src/comment_layout_emission.rs:365-377 | fills the owner's lines, or stops exactly when one of them has an owner already |
| LineDispositions.LinesDecideRegion | crates/ast-merge/src/comment_layout_emission.rs:409-464 | the line-by-line checks of a comment region together say that it may join the regions before it |
| LineDispositions.PlaceRegion | crates/ast-merge/src/comment_layout_emission.rs:380-465 | accepts a region exactly when it sits on its owner's or free lines and agrees with every earlier region |
| LineDispositions.PlaceGap | crates/ast-merge/src/comment_layout_emission.rs:497-518 | accepts a gap exactly when all its lines are blank and unclaimed |
| LineDispositionProperties.RecordsRebuildSource | crates/ast-merge/src/comment_layout_emission.rs:520-526 | exactly one record per physical line, and the record lines concatenate to the source |
| LineDispositionProperties.KindsAreExact | crates/ast-merge/src/comment_layout_emission.rs:356-526 | the kind of a line is owner, comment, root region, gap or unmanaged exactly as the facts that cover it say |
| LineDispositionProperties.OwnedLineIsExact | crates/ast-merge/src/comment_layout_emission.rs:356-465 | an owned line names its owner and exactly the regions over it, in order, and no gap |
| LineDispositionProperties.RegionLineIsExact | crates/ast-merge/src/comment_layout_emission.rs:380-465 | a line of a region outside every owner has that region's names alone |
| LineDispositionProperties.GapLineIsExact | crates/ast-merge/src/comment_layout_emission.rs:466-519 | a line of a gap has that gap's names alone |
| LineDispositionProperties.OwnersAccepted | crates/ast-merge/src/comment_layout_emission.rs:356-378 | owners are accepted exactly when ids are distinct, ranges fit and no line has two owners |
| LineDispositionProperties.RegionsAccepted | crates/ast-merge/src/comment_layout_emission.rs:380-465 | regions are accepted exactly when each line agrees: only the owner's own and enclosed root regions on owned lines, at most one region elsewhere |
| LineDispositionProperties.GapsAccepted | crates/ast-merge/src/comment_layout_emission.rs:466-519 | gaps are accepted exactly when they name themselves and owners and take only blank lines that nothing else has |
| LineDispositionProperties.OwnerOrderIsIrrelevant | crates/ast-merge/src/comment_layout_emission.rs:356-378 | permuting the owners changes neither acceptance nor any record |
| LayoutGaps.BlankRuns | crates/ast-merge/src/layout.rs:319-334 | returns, in order, exactly the maximal runs of blank lines |
| LayoutGaps.AugmentLayout | crates/ast-merge/src/layout.rs:192-317 | refuses at the first failing stage, and otherwise returns one gap per touching blank run and one attachment per owner |
| LayoutGapProperties.NeighboursDecideOverlap | crates/ast-merge/src/layout.rs:209-217 | comparing sorted neighbours finds every overlap of owners and nothing else |
| LayoutGapProperties.GapPerTouchedRun | crates/ast-merge/src/layout.rs:251-300 | a blank run becomes a gap exactly when it touches an owner or an attached comment |
| LayoutGapProperties.GapsNameNeighbours | crates/ast-merge/src/layout.rs:252-285 | every edge names an adjacent owner, the kind says which edges exist, and there always is a controller |
| LayoutGapProperties.EdgesAreExact | crates/ast-merge/src/layout.rs:252-268 | the edges of a gap over owners and boundaries: an adjacent owner first, else the owner of an adjacent comment, else nobody |
| LayoutGapProperties.ControllerIsExact | crates/ast-merge/src/layout.rs:277-285 | the owner right below a gap controls it; without one the owner right above, whatever comment is below; without either the owner of the comment below, at last that of the comment above |
| LayoutGapProperties.AcceptedLayout | crates/ast-merge/src/layout.rs:192-249 | every accepted layout meets the premises of these two statements |
| LayoutGapProperties.FirstGapIsAttached | crates/ast-merge/src/layout.rs:302-315 | with comment boundaries too, an attachment names the first gap in line order that has the owner on that side |
| LayoutRules.RefusalsAreExact | crates/ast-merge/src/layout.rs:192-249 | a layout is refused for an unsound owner, else for a line with two owners, else for a boundary out of range or not on its side of the uppermost owner of its name |
| LayoutRules.GapsCarryTheirLines | crates/ast-merge/src/layout.rs:286-299 | a gap is named by its first and last line, carries exactly these lines, is blank throughout and not extendable, and its kind says which sides have an owner |
| LayoutGapProperties.OneGapPerSide | crates/ast-merge/src/layout.rs:302-315 | without comment boundaries no owner has two leading or two trailing gaps |
| LayoutGapProperties.AttachmentsAreExact | crates/ast-merge/src/layout.rs:302-315 | an owner's leading (trailing) gap is that of a blank run exactly when the run ends right above (starts right below) it |
| LayoutGapProperties.LeadingGapIsBlankLineAbove | crates/ast-merge/src/layout.rs:302-315 | an owner has a leading gap exactly when the line above is blank and its first line is not |
| LayoutGapProperties.GapIdsAreDistinct | crates/ast-merge/src/layout.rs:287 | a gap id names its run |
| LayoutGapProperties.GapIsKnown | crates/ast-merge/src/comment_layout_emission.rs:476-502 | the kind, edge, controller and blank-line checks of the dispositions accept every reported gap |
| LayoutGapProperties.GapsAreAccepted | crates/ast-merge/src/comment_layout_emission.rs:466-519 | the dispositions accept all reported gaps if and only if none reaches into an owner |
| LayoutGapProperties.ClearRunsAreAccepted | crates/ast-merge/src/comment_layout_emission.rs:466-519 | without comment boundaries they do if and only if no blank run next to an owner overlaps an owner |
| LayoutGapProperties.FirmOwnersAreAccepted | crates/ast-merge/src/comment_layout_emission.rs:466-519 | they do whenever no owner starts or ends with a blank line |
| LayoutGapProperties.BlankFirstLineIsRefused | crates/ast-merge/src/comment_layout_emission.rs:504-509 | an owner that starts with a blank line below another owner is refused |
| Comments.LeadingCommentIndices | crates/ast-merge/src/comment.rs:664-701 | the upward search takes one comment per line down to the stopping line, without a file header |
| Comments.TrailingCommentIndices | crates/ast-merge/src/comment.rs:722-761 | the downward search takes comments separated by blank lines only, while the indentation fits |
| Comments.GroupComments | crates/ast-merge/src/comment.rs:872-889 | the groups are the comments in order, linked inside by blank lines only and cut wherever something else stands between |
| CommentProperties.NeighboursShareGroup | crates/ast-merge/src/comment.rs:872-889 | neighbouring remaining comments share a group if and only if all lines between them are blank |
| Comments.Regions.Push | crates/ast-merge/src/comment.rs:814-870 | nothing for no comments, otherwise one region with its nodes and one report of exactly its comments |
| Comments.PlaceGroup | crates/ast-merge/src/comment.rs:597-643 | a remaining group becomes the preamble, a preamble and an orphan, or an orphan; at most one preamble |
| Comments.AugmentCommentsObserved | crates/ast-merge/src/comment.rs:468-653 | refuses comments outside the source and refused layouts, otherwise returns the regions, attachments and reports of all claims |
| CommentProperties.CommentsAreAccountedFor | crates/ast-merge/src/comment.rs:487-643 | no comment is in two regions; a comment is in a region exactly when it is full-line, or owner-scoped on an owner's lines; every region keeps to its side, and inline regions hold exactly the comments that are not full-line |
| CommentProperties.LeadingReachesOwner | crates/ast-merge/src/comment.rs:664-701 | between a leading comment and its owner there are only blank lines and other leading comments |
| CommentProperties.TrailingReachesOwner | crates/ast-merge/src/comment.rs:722-761 | between an owner and a trailing comment there are only blank lines and other trailing comments, and the line below the owner is not blank |
| CommentRules.LeadingIsExact | crates/ast-merge/src/comment.rs:664-701 | for both policies, the leading comments are exactly the first free comments of the lines that the search reaches, without the header |
| CommentRules.HeaderStaysOut | crates/ast-merge/src/comment.rs:692-699 | a comment on line 1 is leading only if no line above its owner is blank |
| CommentRules.PrecedingOwnerTakes | crates/ast-merge/src/comment.rs:664-701 | under the policy for preceding owners every free comment below the header that is bridged down to the owner is taken |
| CommentRules.TrailingIsExact | crates/ast-merge/src/comment.rs:722-761 | the trailing comments are exactly the first free comments of the lines reached downward with fitting indentation, before the next owner |
| CommentRegions.LeadingRegionIsExact | crates/ast-merge/src/comment.rs:487-533 | the same for the reported leading region of an owner, where free means held by no owner above |
| CommentRegions.HeaderIsNotLeading | crates/ast-merge/src/comment.rs:692-699 | no reported leading region of an owner with a blank line above it has a comment on line 1 |
| CommentRegions.InlineRegionIsExact | crates/ast-merge/src/comment.rs:489-499 | an owner's inline region holds exactly the owner-scoped comments behind code on its lines that no owner above holds |
| CommentRegions.TrailingRegionIsExact | crates/ast-merge/src/comment.rs:500-508 | an owner's trailing region holds exactly what the downward search reaches before the next owner |
| CommentRegions.PostludeIsExact | crates/ast-merge/src/comment.rs:564-578 | the postlude holds exactly the owner-scoped full-line comments below the last owner that no owner holds |
| DocumentRegions.RemainingRegionsAreExact | crates/ast-merge/src/comment.rs:587-643 | the preamble is the first run of remaining comments if it stands above the first owner, cut at its last blank line below line 1 when it starts there; every other remaining comment is an orphan |
| DocumentRegions.RegionsAreRuns | crates/ast-merge/src/comment.rs:593-643 | two remaining comments share a region exactly when every line between them is blank or has a remaining comment and both or neither are in the preamble |
| AugmentationProperties.RegionsAreExact | crates/ast-merge/src/comment.rs:814-870 | a reported region is named by its kind, first and last line, carries exactly its comments and the blank lines between them in line order, and floats exactly when a blank line parts a leading one from its owner |
| AugmentationProperties.AttachmentsNameTheirRegions | crates/ast-merge/src/comment.rs:513-563 | an attachment names exactly its owner's leading, inline and trailing region and gaps |
| AugmentationProperties.DocumentNamesItsRegions | crates/ast-merge/src/comment.rs:564-653 | the document's ids are those of its preamble, postlude and orphans, in order |
| CommentProperties.GroupIsSound | crates/ast-merge/src/comment.rs:597-643 | placing a group puts each of its comments in exactly one region, preamble comments above the first owner |
| CommentEvidence.AugmentWithEvidence | crates/ast-merge/src/comment.rs:156-186 | lists under each region exactly the nodes reported for it, and as unclaimed exactly the nodes of unreported comments |
| CommentEvidence.UnclaimedNodesAreExact | crates/ast-merge/src/comment.rs:181-186 | the unclaimed nodes are exactly those with a comment that is neither full-line nor owner-scoped on an owner's lines |
| LineAssignments.FaultlessIsAssigned | crates/ast-merge/src/comment_layout_emission.rs:200-275 | none of the checks reports anything if and only if the region ids are distinct, assigned exactly once each, and every region has lines |
| LineAssignments.CheckAssignments | crates/ast-merge/src/comment_layout_emission.rs:200-252 | builds the two tables of places, or returns the first of its faults in their order |
| LineAssignments.CoverIsPermutation | crates/ast-merge/src/comment_layout_emission.rs:237-257 | the counting checks on two tables say that their ids together are a permutation of the region ids |
| LineAssignments.DispositionsFromAugmentations | crates/ast-merge/src/comment_layout_emission.rs:194-328 | returns the first fault of the tables or of a region, otherwise the dispositions of the regions, each with its one place, moved to the owner that contains it |
| AssignmentRules.RegionFactIsExact | crates/ast-merge/src/comment_layout_emission.rs:253-328 | a region's line fact spans its nodes, keeps the side its attachment names and goes to the first owner around it, else to the attachment's; document regions keep their place |
| AssignmentRules.GapFactIsExact | crates/ast-merge/src/comment_layout_emission.rs:283-302 | a gap's line fact carries its lines, kind and edges, a key made of them, and the owner on its controlling side |
| LineAssignmentProperties.AugmentedRegionsAreAssigned | crates/ast-merge/src/comment_layout_emission.rs:200-257 | what the comment augmenter returns passes these checks if and only if no two regions share an id |
| RegionIds.RegionIdNames | crates/ast-merge/src/comment.rs:831-835 | two region ids are equal if and only if kind, first line and last line are |
| RegionIds.OwnerIdsCollide | crates/ast-merge/src/comment.rs:487-595 | two regions of owners share an id only as leading regions of different owners whose searches take the same lines |
| RegionIds.AugmentedRegionsPass | crates/ast-merge/src/comment.rs:468-653 | the assignment checks pass if and only if no two owners' upward searches take comments from the same first to the same last line |
| RegionIds.AugmenterOutputIsAssigned | crates/ast-merge/src/comment.rs:468-653 | the same for every accepted input of the augmenter, in any order of owners and comments, and the guard condition suffices |
| RegionIds.GuardedSearchesDiffer | crates/ast-merge/src/comment.rs:664-701 | searches differ when a solid line stands between each doubled comment line above an owner and the next owner |
| RegionIds.SolidOwnersAreGuarded | crates/ast-merge/src/comment.rs:664-701 | that is so when every owner but the last has a line that is neither blank nor carries an owner-scoped full-line comment |
| RegionIds.SingleLinesAreGuarded | crates/ast-merge/src/comment.rs:664-701 | and when no line carries two owner-scoped full-line comments |
| RegionIds.UnguardedLineCollides | crates/ast-merge/src/comment.rs:664-701 | two free comments on a line, a solid line above it and only empty lines down to the owner after the next make two searches take the same line |
| RegionIds.RemarksAreRefused | crates/ast-merge/src/comment_layout_emission.rs:200-257 | the smallest such input: the layout is accepted, and the checks refuse whatever the augmenter returns for it |
| Matching.MatchIdentityPass | crates/ast-merge/src/matching.rs:89-130 | the queues find exactly what a fresh search for the first unused node would find |
| Matching.MatchNodeIdentities | crates/ast-merge/src/matching.rs:60-87 | both passes, sorted, with the unmatched indices |
| Matching.PrimaryPassPairsOccurrences | crates/ast-merge/src/matching.rs:66-72 | the primary pass pairs the k-th template with the k-th destination occurrence of each primary signature, and nothing else |
| Matching.PrimaryPassPairsTheFewer | crates/ast-merge/src/matching.rs:66-72 | of the more frequent side only the surplus occurrences stay unpaired |
| Matching.PairingIsOneToOne | crates/ast-merge/src/matching.rs:60-87 | the pairing is injective, strictly ordered by template, and every recorded signature belongs to both nodes |
| Matching.PairingPartitions | crates/ast-merge/src/matching.rs:82-86 | matched and unmatched indices partition both inputs |
| Matching.PairingIsMaximal | crates/ast-merge/src/matching.rs:73-86 | no unmatched template node and unmatched destination node share a primary or alias signature |
| Matching.PrimaryPairsSurvive | crates/ast-merge/src/matching.rs:64-80 | aliases cannot take a node from its primary pair |
| MatchingRules.SecondPassIsExact | crates/ast-merge/src/matching.rs:73-130 | outside the primary pairs a template node gets its first signature with a free destination, and the first such destination; free is what no primary pair and no earlier template node has |
| GreedyBound.LongestFirstBound | bench/file-corpus/make_manifest.py:58-73 | longest job first, for nonnegative real costs, is within 4/3 - 1/(3m) of every assignment to m shards |
| Heap.PopLeast | bench/file-corpus/make_manifest.py:67 | removes a least entry and keeps the others |
| ManifestShards.GroupsCarryLoad | bench/file-corpus/make_manifest.py:55-57 | grouping cases by repository keeps the load of every shard, for every assignment |
| ManifestShards.BuildShards | bench/file-corpus/make_manifest.py:58-73 | groups go longest first to a least loaded shard; every case gets its repository's shard and the totals are right |
| ShardProperties.RepositoriesInOrder | bench/file-corpus/make_manifest.py:58-59 | heavier repositories come first, equal ones by name |
| ShardProperties.ShardIsLeast | bench/file-corpus/make_manifest.py:60-73 | each goes to the shard with fewest bytes so far, then fewest cases, then least number |
| ShardProperties.CountsAreCases | bench/file-corpus/make_manifest.py:60-73 | the case count of a shard is the number of cases given to it |
| ManifestShards.ManifestBound | bench/file-corpus/make_manifest.py:58-73 | if any assignment of whole repositories keeps m shards within a limit, 3m times the built loads are within (4m - 1) times that limit |
| RepositoryShards.ReadCosts | bench/ast-merging-evaluation/shard_repos.py:46-56 | succeeds exactly on positive estimates; a later estimate replaces an earlier one |
| RepositoryShards.DefaultIsMedian | bench/ast-merging-evaluation/shard_repos.py:57-60 | the default is one without known estimates, else a known one with at most half of them smaller and more than half not larger; it is positive if all estimates are |
| RepositoryShards.ShardByCost | bench/ast-merging-evaluation/shard_repos.py:69-83 | rows go longest first, ties by random number, each to the shard with least load, fewest rows and least number; the groups partition the rows in that order, loads are the groups' costs, and no two loads differ by more than the largest cost |
| RepositoryShards.RowsInOrder | bench/ast-merging-evaluation/shard_repos.py:69-83 | rows are taken by falling cost, equal ones by rising random number |
| RepositoryShards.ShardIsLeast | bench/ast-merging-evaluation/shard_repos.py:71-83 | each row goes to the shard with least cost so far, then fewest rows, then least number |
| RepositoryShards.CostBound | bench/ast-merging-evaluation/shard_repos.py:69-83 | if the rows can be shared out over m groups in any way within a limit, the groups built here stay within 4/3 - 1/(3m) of it |
| RepositoryShards.ShardRoundRobin | bench/ast-merging-evaluation/shard_repos.py:84-89 | the groups partition the shuffled rows; row k is at position k / m of group k modulo m |
| Inventory.Visitor.Visit | workspace-scripts/check_typed_release_inventory.py:27-66 | completes the name and everything below it, keeping the list settled, or reports a fault that is justified |
| Inventory.CheckPackage | workspace-scripts/check_typed_release_inventory.py:33-54 | a passing package yields exactly its publication edges, sorted, each once; a failing one yields a true fault |
| InventoryRules.DirectoryIsExact | workspace-scripts/check_typed_release_inventory.py:22-24 | a directory leads to the package that lies in it; of several, to the one whose name comes up last for the first time, each name standing for its last local package |
| InventoryRules.EdgeIsExact | workspace-scripts/check_typed_release_inventory.py:40-51 | a package depends on another exactly when its counting metadata has a local path that is not for development only and leads there |
| InventoryRules.PassingIsExact | workspace-scripts/check_typed_release_inventory.py:33-51 | a package passes exactly when its name has no "prototype", its counting manifest lies under the root, it may be published, and each local dependency leads to the package it names with a version |
| Inventory.DependenciesComeFirst | workspace-scripts/check_typed_release_inventory.py:55-66 | every dependency of a listed package is listed at an earlier position |
| Inventory.ListsExactlyReachable | workspace-scripts/check_typed_release_inventory.py:68-77 | the list has exactly the packages reachable from the roots, each once |
| Inventory.ListedMeansHealthy | workspace-scripts/check_typed_release_inventory.py:20-78 | a completed list means that every reachable package passes and none depends on itself |
| Inventory.FaultMeansUnhealthy | workspace-scripts/check_typed_release_inventory.py:27-54 | a reported fault means that some reachable package fails a check or depends on itself |
| Inventory.TakeInventory | workspace-scripts/check_typed_release_inventory.py:20-78 | returns if and only if all reachable packages pass and the reachable graph is acyclic, with exactly the reachable packages, dependencies first, in the depth-first order of the roots and their sorted dependencies |

## Left out

- AlignedMergeIsClean: completeness is stated for documents with equal owner lists only; when owners were added, removed or reordered the reparse is compared by complete lines and some gaps are dropped, so there a clean result is described by CleanMergeIsDiff3, CleanMergeOrder, CleanMergeBytes and CleanMergeKeepsLayout, and no result is promised.
- AugmentWithEvidence: takes comments with their node ids; reading comments off syntax nodes, owner indentation from node columns and the byte ranges of nodes are not modelled.
- SourceLineDispositions: a refusal tells the stage (owners, regions, gaps), not the individual message.
- AugmentedRegionsPass: the exact condition compares the upward searches of the owners, which depend on the comments that earlier owners have taken; a condition on single lines is stated as sufficient (GuardedSearchesDiffer) and, for a family of inputs, as necessary (UnguardedLineCollides).
- ClassifyDirectionalOwners: the copied source descriptors are reduced to source id and role.
- AugmentLayout: owners are sorted by start and end line; the further tie-break by id only orders owners at the same position, which are refused as overlapping. The wrapper that derives comment boundaries from attachments is not modelled.
- GapIsKnown: comment regions may still claim a gap's lines; the gap checks against regions are only modelled in the dispositions themselves.
- VerifySourceByteSegments: SHA-256 is an arbitrary function of the bytes, so a digest check means equality of digests, not of bytes.
- MergeOwners: the reparse callback is a function of the rendered bytes; diagnostic texts are reduced to one constructor per error.
- ReadCosts: CSV and JSON reading, argument parsing, output files and the random number generator are parameters or absent; Python floats are reals.
- TakeInventory: paths arrive resolved; the JSON envelope around the list and the drift check against a stored inventory are not modelled. A set of dependency names is kept as a list without repetition before it is sorted.
- Machine integers are unbounded in the model; the original's `usize` never comes near its limit on sources held in memory.
- Sorting is the stable sort of the standard libraries, given as a function that is proved to sort and to keep all elements; heaps are sequences from which a least entry is taken.
- Parsers, syntax trees, serialization, digests' implementation, process and network code, and the generated bindings.
- `match_owner_paths` and the identity constructors in the matching file, which only wrap the functions above.
- Helper queries on gaps after owner removal, root boundary and leading segment line numbers: easy look-ups beside the modelled functions.
