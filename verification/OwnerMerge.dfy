/** The three-way, source-preserving merge of owner documents. */
module OwnerMerge {
  import opened Wrappers
  import opened Sequences
  import opened Bytes
  import opened Documents
  import opened PhysicalLines
  import opened LineLayout
  import opened ByteEvidence
  import opened OwnerDecisions

  datatype Category = Ambiguity | UnsupportedFeature | ConfigurationError

  datatype Reason =
    | InvalidInput
    | NoCombinedMembership
    | NoAgreedOrder
    | UnreadableLines
    | LayoutChanged
    | NotReparsed
    | InvalidRender
    | StructureChanged
    | RenderedLayoutChanged
    | InvalidByteEvidence

  datatype Outcome =
    | Clean(output: ByteString)
    | Conflict(conflicts: seq<MergeConflict>)
    | Error(category: Category, reason: Reason)

  /** The reparse of a rendered text; any function may stand here. */
  type Reparse = ByteString -> Result<Document, string>

  // ----- which owners, in which layout

  function Ids(doc: Document): set<string> {
    set id | id in OwnerIds(doc)
  }

  function Selected(inputs: Inputs): map<string, SourceRevision>
    requires inputs.Valid()
  {
    AllOwnerIdsAreKnown(inputs);
    SelectedFrom(inputs, AllOwnerIds(inputs))
  }

  function Conflicts(inputs: Inputs): seq<MergeConflict>
    requires inputs.Valid()
  {
    AllOwnerIdsAreKnown(inputs);
    ConflictsIn(inputs, AllOwnerIds(inputs))
  }

  /** The document whose layout the output keeps, and whether theirs' new owners are appended to it. */
  datatype Baseline = Baseline(revision: SourceRevision, appendsTheirs: bool)

  function ChooseBaseline(selected: set<string>, ours: set<string>, theirs: set<string>): Option<Baseline> {
    if selected == ours then Some(Baseline(Ours, false))
    else if selected == theirs then Some(Baseline(Theirs, false))
    else if ours <= selected then Some(Baseline(Ours, true))
    else None
  }

  function StableIds(inputs: Inputs): set<string> {
    Ids(inputs.base) * Ids(inputs.ours) * Ids(inputs.theirs)
  }

  predicate MembershipChanged(inputs: Inputs) {
    OwnerIds(inputs.base) != OwnerIds(inputs.ours) || OwnerIds(inputs.base) != OwnerIds(inputs.theirs)
  }

  /** `owner_order_for_ids`. */
  function OrderOf(doc: Document, ids: set<string>): seq<string> {
    Filter(OwnerIds(doc), id => id in ids)
  }

  predicate OrderAgreed(inputs: Inputs) {
    StableIds(inputs) == {} || OrderOf(inputs.ours, StableIds(inputs)) == OrderOf(inputs.theirs, StableIds(inputs))
  }

  predicate OrderChanged(inputs: Inputs) {
    StableIds(inputs) != {} && OrderOf(inputs.base, StableIds(inputs)) != OrderOf(inputs.ours, StableIds(inputs))
  }

  /** Whether the layout around the stable owners is the same in every document that counts. */
  function LayoutAgreed(inputs: Inputs): Result<bool, Reason>
    requires inputs.Valid()
  {
    var stable := StableIds(inputs);
    if MembershipChanged(inputs) then
      if stable == {} then Ok(false)
      else if !LinesSeparate(inputs.base) || !LinesSeparate(inputs.ours) || !LinesSeparate(inputs.theirs) then
        Err(UnreadableLines)
      else if OrderChanged(inputs) then
        Ok(StableLayout(inputs.ours, stable) == StableLayout(inputs.theirs, stable))
      else
        Ok(StableLayout(inputs.base, stable) == StableLayout(inputs.ours, stable)
           && StableLayout(inputs.base, stable) == StableLayout(inputs.theirs, stable))
    else if OrderChanged(inputs) then Ok(Gaps(inputs.ours) == Gaps(inputs.theirs))
    else Ok(Gaps(inputs.base) == Gaps(inputs.ours) && Gaps(inputs.base) == Gaps(inputs.theirs))
  }

  /** The layout comparison of `merge_owners`. */
  method CompareLayouts(inputs: Inputs) returns (r: Result<bool, Reason>)
    requires inputs.Valid()
    ensures r == LayoutAgreed(inputs)
  {
    var stable := StableIds(inputs);
    if MembershipChanged(inputs) && stable == {} {
      return Ok(false);
    }
    if MembershipChanged(inputs) {
      var base := LayoutSegmentsForIds(inputs.base, stable);
      var ours := LayoutSegmentsForIds(inputs.ours, stable);
      var theirs := LayoutSegmentsForIds(inputs.theirs, stable);
      if base.Err? || ours.Err? || theirs.Err? {
        return Err(UnreadableLines);
      }
      if OrderChanged(inputs) {
        return Ok(ours.value == theirs.value);
      }
      return Ok(base.value == ours.value && base.value == theirs.value);
    }
    var ours := LayoutSegments(inputs.ours);
    var theirs := LayoutSegments(inputs.theirs);
    if OrderChanged(inputs) {
      return Ok(ours == theirs);
    }
    var base := LayoutSegments(inputs.base);
    return Ok(base == ours && base == theirs);
  }

  /** A changed order is a changed membership list, so the comparison of whole layouts never sees one. */
  lemma OrderChangeIsMembershipChange(inputs: Inputs)
    requires OrderChanged(inputs)
    ensures MembershipChanged(inputs)
  {
    assert OwnerIds(inputs.base) == OwnerIds(inputs.ours) ==>
        OrderOf(inputs.base, StableIds(inputs)) == OrderOf(inputs.ours, StableIds(inputs));
  }

  // ----- the plan: which bytes go where

  function SourceOf(inputs: Inputs, revision: SourceRevision): Document {
    match revision
    case Base => inputs.base
    case Ours => inputs.ours
    case Theirs => inputs.theirs
  }

  /** The inputs have no conflict and a baseline that the selection covers. */
  predicate Plannable(inputs: Inputs, baseline: Baseline) {
    && inputs.Valid()
    && baseline.revision != Base
    && Ids(SourceOf(inputs, baseline.revision)) <= Selected(inputs).Keys
  }

  lemma SelectedIsThere(inputs: Inputs, id: string)
    requires inputs.Valid() && id in Selected(inputs)
    ensures Selected(inputs)[id] != Base
    ensures Lookup(SourceOf(inputs, Selected(inputs)[id]), id).Some?
    ensures inputs.Knows(id)
    ensures inputs.Reference(id) == Keep(Fingerprint(SourceOf(inputs, Selected(inputs)[id]), id))
  {
    AllIdsAreKnown(inputs, id);
    ClassifyIsDiff3(Lookup(inputs.base, id), Lookup(inputs.ours, id), Lookup(inputs.theirs, id));
  }

  /** The owner whose bytes stand for `id` in the output. */
  function SelectedOwner(inputs: Inputs, id: string): (owner: Owner)
    requires inputs.Valid() && id in Selected(inputs)
    ensures owner.id == id
    ensures owner in SourceOf(inputs, Selected(inputs)[id]).owners
  {
    SelectedIsThere(inputs, id);
    IdIsOwned(SourceOf(inputs, Selected(inputs)[id]), id);
    Lookup(SourceOf(inputs, Selected(inputs)[id]), id).value
  }

  function OwnerPiece(inputs: Inputs, id: string): Piece
    requires inputs.Valid() && id in Selected(inputs)
  {
    var owner := SelectedOwner(inputs, id);
    Piece(Selected(inputs)[id], ByteRange(owner.start, owner.end), Some(id))
  }

  function GapPiece(inputs: Inputs, revision: SourceRevision, k: nat): Piece
    requires k <= |SourceOf(inputs, revision).owners|
  {
    Piece(revision, GapRange(SourceOf(inputs, revision), k), None)
  }

  function BaselineId(inputs: Inputs, baseline: Baseline, k: nat): (id: string)
    requires Plannable(inputs, baseline) && k < |SourceOf(inputs, baseline.revision).owners|
    ensures id in Selected(inputs)
  {
    var doc := SourceOf(inputs, baseline.revision);
    assert OwnerIds(doc)[k] in Ids(doc);
    doc.owners[k].id
  }

  /** For each of the first `k` baseline owners: its gap, then the selected bytes. */
  function BaselinePieces(inputs: Inputs, baseline: Baseline, k: nat): seq<Piece>
    requires Plannable(inputs, baseline) && k <= |SourceOf(inputs, baseline.revision).owners|
  {
    if k == 0 then []
    else BaselinePieces(inputs, baseline, k - 1)
         + [GapPiece(inputs, baseline.revision, k - 1), OwnerPiece(inputs, BaselineId(inputs, baseline, k - 1))]
  }

  /** The owners that only theirs added, in their order. */
  function Additions(inputs: Inputs, baseline: Baseline): seq<Owner>
    requires inputs.Valid()
  {
    if !baseline.appendsTheirs then []
    else
      var selected, ours := Selected(inputs), Ids(inputs.ours);
      Filter(inputs.theirs.owners, (o: Owner) => o.id !in ours && o.id in selected && selected[o.id] == Theirs)
  }

  predicate AdditionsHaveLines(inputs: Inputs, baseline: Baseline)
    requires inputs.Valid()
  {
    forall k :: 0 <= k < |Additions(inputs, baseline)| ==>
      PhysicalLineRange(inputs.theirs, Additions(inputs, baseline)[k]).Ok?
  }

  /** The complete lines of the first `k` added owners. */
  function AdditionPieces(inputs: Inputs, additions: seq<Owner>, k: nat): seq<Piece>
    requires k <= |additions|
    requires forall j :: 0 <= j < k ==> PhysicalLineRange(inputs.theirs, additions[j]).Ok?
  {
    if k == 0 then []
    else AdditionPieces(inputs, additions, k - 1)
         + [Piece(Theirs, PhysicalLineRange(inputs.theirs, additions[k - 1]).value, Some(additions[k - 1].id))]
  }

  function BodyPieces(inputs: Inputs, baseline: Baseline): seq<Piece>
    requires Plannable(inputs, baseline)
  {
    var n := |SourceOf(inputs, baseline.revision).owners|;
    BaselinePieces(inputs, baseline, n) + [GapPiece(inputs, baseline.revision, n)]
  }

  function Plan(inputs: Inputs, baseline: Baseline): seq<Piece>
    requires Plannable(inputs, baseline) && AdditionsHaveLines(inputs, baseline)
  {
    var additions := Additions(inputs, baseline);
    BodyPieces(inputs, baseline) + AdditionPieces(inputs, additions, |additions|)
  }

  // ----- every planned piece lies inside its source

  predicate AllFit(inputs: Inputs, pieces: seq<Piece>) {
    forall k :: 0 <= k < |pieces| ==> PieceFits(inputs.Sources(), pieces[k])
  }

  lemma OwnerPieceFits(inputs: Inputs, id: string)
    requires inputs.Valid() && id in Selected(inputs)
    ensures PieceFits(inputs.Sources(), OwnerPiece(inputs, id))
  {
    var owner, doc := SelectedOwner(inputs, id), SourceOf(inputs, Selected(inputs)[id]);
    var k :| 0 <= k < |doc.owners| && doc.owners[k] == owner;
    assert OwnerFits(doc, k);
  }

  lemma {:induction false} BaselinePiecesFit(inputs: Inputs, baseline: Baseline, k: nat)
    requires Plannable(inputs, baseline) && k <= |SourceOf(inputs, baseline.revision).owners|
    ensures AllFit(inputs, BaselinePieces(inputs, baseline, k))
    ensures PieceFits(inputs.Sources(), GapPiece(inputs, baseline.revision, k))
  {
    hide Selected, SelectedOwner, OwnerPiece, ValidDocument, BaselineId;
    GapIsRange(SourceOf(inputs, baseline.revision), k);
    if k > 0 {
      BaselinePiecesFit(inputs, baseline, k - 1);
      OwnerPieceFits(inputs, BaselineId(inputs, baseline, k - 1));
    }
  }

  lemma {:induction false} AdditionPiecesFit(inputs: Inputs, additions: seq<Owner>, k: nat)
    requires ValidDocument(inputs.theirs) && k <= |additions|
    requires forall j :: 0 <= j < |additions| ==> additions[j] in inputs.theirs.owners
    requires forall j :: 0 <= j < k ==> PhysicalLineRange(inputs.theirs, additions[j]).Ok?
    ensures AllFit(inputs, AdditionPieces(inputs, additions, k))
  {
    hide PhysicalLineRange;
    if k > 0 {
      AdditionPiecesFit(inputs, additions, k - 1);
      LinesOfOwnerFit(inputs.theirs, additions[k - 1]);
    }
  }

  lemma LinesOfOwnerFit(doc: Document, owner: Owner)
    requires ValidDocument(doc) && owner in doc.owners && PhysicalLineRange(doc, owner).Ok?
    ensures var range := PhysicalLineRange(doc, owner).value;
            range.start <= owner.start < owner.end <= range.end <= |doc.source|
  {
    var k :| 0 <= k < |doc.owners| && doc.owners[k] == owner;
    assert OwnerFits(doc, k);
  }

  lemma PlanFits(inputs: Inputs, baseline: Baseline)
    requires Plannable(inputs, baseline)
    ensures AllFit(inputs, BodyPieces(inputs, baseline))
    ensures AdditionsHaveLines(inputs, baseline) ==> AllFit(inputs, Plan(inputs, baseline))
  {
    hide Selected, BaselinePieces, AdditionPieces, Additions, PhysicalLineRange, ValidDocument, PieceFits, GapPiece;
    BaselinePiecesFit(inputs, baseline, |SourceOf(inputs, baseline.revision).owners|);
    if AdditionsHaveLines(inputs, baseline) {
      AdditionsAreTheirs(inputs, baseline);
      AdditionPiecesFit(inputs, Additions(inputs, baseline), |Additions(inputs, baseline)|);
    }
  }

  lemma AdditionsAreTheirs(inputs: Inputs, baseline: Baseline)
    requires inputs.Valid()
    ensures forall owner :: owner in Additions(inputs, baseline) <==>
              && baseline.appendsTheirs
              && owner in inputs.theirs.owners
              && owner.id !in Ids(inputs.ours)
              && owner.id in Selected(inputs)
              && Selected(inputs)[owner.id] == Theirs
  {
    if baseline.appendsTheirs {
      var selected, ours := Selected(inputs), Ids(inputs.ours);
      FilterMembers(inputs.theirs.owners,
                    (o: Owner) => o.id !in ours && o.id in selected && selected[o.id] == Theirs);
    }
  }

  lemma AdditionHasOwner(inputs: Inputs, baseline: Baseline)
    requires inputs.Valid()
    ensures var additions := Additions(inputs, baseline);
            forall k :: 0 <= k < |additions| ==> additions[k] in inputs.theirs.owners
  {
    AdditionsAreTheirs(inputs, baseline);
  }

  // ----- what the reparse has to show

  function BaselineExpectation(inputs: Inputs, baseline: Baseline): seq<(string, string)>
    requires Plannable(inputs, baseline)
  {
    var doc := SourceOf(inputs, baseline.revision);
    seq(|doc.owners|, k requires 0 <= k < |doc.owners| =>
      var id := BaselineId(inputs, baseline, k);
      (id, SelectedOwner(inputs, id).fingerprint))
  }

  function AdditionExpectation(additions: seq<Owner>): seq<(string, string)> {
    seq(|additions|, k requires 0 <= k < |additions| => (additions[k].id, additions[k].fingerprint))
  }

  /** Identity and fingerprint of every owner the output should have, in order. */
  function ExpectedOwners(inputs: Inputs, baseline: Baseline): seq<(string, string)>
    requires Plannable(inputs, baseline)
  {
    BaselineExpectation(inputs, baseline) + AdditionExpectation(Additions(inputs, baseline))
  }

  lemma ExpectationSplits(inputs: Inputs, baseline: Baseline)
    requires Plannable(inputs, baseline)
    ensures ExpectedOwners(inputs, baseline) ==
            BaselineExpectation(inputs, baseline) + AdditionExpectation(Additions(inputs, baseline))
  {}

  predicate ShowsOwners(rendered: Document, expected: seq<(string, string)>) {
    && |rendered.owners| == |expected|
    && forall k :: 0 <= k < |expected| ==>
         rendered.owners[k].id == expected[k].0 && rendered.owners[k].fingerprint == expected[k].1
  }

  /** The verdict on a reparsed output. */
  function Judge(inputs: Inputs, baseline: Baseline, output: ByteString, reparsed: Result<Document, string>)
    : (outcome: Outcome)
    requires Plannable(inputs, baseline)
    ensures outcome.Clean? ==> outcome.output == output
  {
    var stable, doc := StableIds(inputs), SourceOf(inputs, baseline.revision);
    if reparsed.Err? then Error(ConfigurationError, NotReparsed)
    else if !ValidDocument(reparsed.value) then Error(ConfigurationError, InvalidRender)
    else if !ShowsOwners(reparsed.value, ExpectedOwners(inputs, baseline)) then
      Error(ConfigurationError, StructureChanged)
    else if MembershipChanged(inputs) && (!LinesSeparate(reparsed.value) || !LinesSeparate(doc)) then
      Error(ConfigurationError, UnreadableLines)
    else if MembershipChanged(inputs) && StableLayout(reparsed.value, stable) != StableLayout(doc, stable) then
      Error(ConfigurationError, RenderedLayoutChanged)
    else if !MembershipChanged(inputs) && Gaps(reparsed.value) != Gaps(doc) then
      Error(ConfigurationError, RenderedLayoutChanged)
    else Clean(output)
  }

  function Choice(inputs: Inputs): Option<Baseline>
    requires inputs.Valid()
  {
    ChooseBaseline(Selected(inputs).Keys, Ids(inputs.ours), Ids(inputs.theirs))
  }

  /** A baseline is chosen only when every one of its owners was selected. */
  lemma ChosenBaselineIsPlannable(inputs: Inputs)
    requires inputs.Valid() && Choice(inputs).Some?
    ensures Plannable(inputs, Choice(inputs).value)
  {
    hide Selected, Inputs.Valid;
  }

  /** The planned text of a chosen baseline. */
  function PlannedText(inputs: Inputs, baseline: Baseline): ByteString
    requires Plannable(inputs, baseline) && AdditionsHaveLines(inputs, baseline)
  {
    PlanFits(inputs, baseline);
    Rendered(inputs.Sources(), Plan(inputs, baseline))
  }

  /** The reason why a conflict-free merge is not rendered, if there is one. */
  function Obstacle(inputs: Inputs): Option<Outcome>
    requires inputs.Valid()
  {
    if Choice(inputs).None? then Some(Error(UnsupportedFeature, NoCombinedMembership))
    else if !OrderAgreed(inputs) then Some(Error(UnsupportedFeature, NoAgreedOrder))
    else if LayoutAgreed(inputs).Err? then Some(Error(ConfigurationError, LayoutAgreed(inputs).error))
    else if !LayoutAgreed(inputs).value then Some(Error(UnsupportedFeature, LayoutChanged))
    else if !AdditionsHaveLines(inputs, Choice(inputs).value) then Some(Error(ConfigurationError, UnreadableLines))
    else None
  }

  /** The outcome of a merge without a whole-source answer and without conflicts. */
  function Combine(inputs: Inputs, reparse: Reparse): Outcome
    requires inputs.Valid()
  {
    match Obstacle(inputs)
    case Some(outcome) => outcome
    case None =>
      ChosenBaselineIsPlannable(inputs);
      var output := PlannedText(inputs, Choice(inputs).value);
      Judge(inputs, Choice(inputs).value, output, reparse(output))
  }

  /** The outcome of a merge, for any reparse. */
  function Merge(inputs: Inputs, reparse: Reparse): Outcome {
    if !inputs.Valid() then Error(Ambiguity, InvalidInput)
    else if inputs.Shortcut().Some? then Clean(SourceOf(inputs, inputs.Shortcut().value).source)
    else if Conflicts(inputs) != [] then Conflict(Conflicts(inputs))
    else Combine(inputs, reparse)
  }

  lemma MergeNeverBlamesEvidence(inputs: Inputs, reparse: Reparse)
    ensures Merge(inputs, reparse) != Error(ConfigurationError, InvalidByteEvidence)
  {
    hide Inputs.Valid, Conflicts, PlannedText, Choice, Plannable;
    if inputs.Valid() && Obstacle(inputs).None? {
      ChosenBaselineIsPlannable(inputs);
    }
  }

  // ----- the imperative merge

  /** The buffer holds exactly the text of `pieces`, with evidence for every byte of it. */
  ghost predicate Spells(buffer: RenderBuffer, inputs: Inputs, pieces: seq<Piece>, sha: Digest)
    reads buffer
  {
    && AllFit(inputs, pieces)
    && buffer.output == Rendered(inputs.Sources(), pieces)
    && EvidenceSoFar(buffer.output, inputs.Sources(), buffer.segments, sha)
  }

  lemma RenderedGrows(inputs: Inputs, pieces: seq<Piece>, piece: Piece)
    requires AllFit(inputs, pieces) && PieceFits(inputs.Sources(), piece)
    ensures AllFit(inputs, pieces + [piece])
    ensures Rendered(inputs.Sources(), pieces + [piece]) ==
            Rendered(inputs.Sources(), pieces) + PieceBytes(inputs.Sources(), piece)
  {
    assert (pieces + [piece])[..|pieces|] == pieces;
  }

  /** Append one planned piece to a buffer that spells the pieces before it. */
  method CopyPiece(buffer: RenderBuffer, inputs: Inputs, piece: Piece, sha: Digest, ghost pieces: seq<Piece>)
    requires PieceFits(inputs.Sources(), piece) && Spells(buffer, inputs, pieces, sha)
    modifies buffer
    ensures Spells(buffer, inputs, pieces + [piece], sha)
  {
    RenderedGrows(inputs, pieces, piece);
    ghost var output, segments, sources := buffer.output, buffer.segments, inputs.Sources();
    if PieceBytes(sources, piece) != [] {
      AppendKeepsEvidence(output, sources, segments, piece, sha);
    }
    buffer.AppendSourceSegment(inputs.Sources()[piece.revision], piece, sha);
    assert PieceBytes(sources, piece) == [] ==> buffer.output == output && buffer.segments == segments;
  }

  /** Copy the baseline's gaps around the selected owners. */
  method RenderBaseline(inputs: Inputs, baseline: Baseline, buffer: RenderBuffer, sha: Digest)
    returns (expected: seq<(string, string)>)
    requires Plannable(inputs, baseline) && Spells(buffer, inputs, [], sha)
    modifies buffer
    ensures expected == BaselineExpectation(inputs, baseline)
    ensures Spells(buffer, inputs, BodyPieces(inputs, baseline), sha)
  {
    hide Inputs.Valid, Selected, SelectedOwner, OwnerPiece, Spells;
    var doc := SourceOf(inputs, baseline.revision);
    expected := [];
    for k := 0 to |doc.owners|
      invariant Spells(buffer, inputs, BaselinePieces(inputs, baseline, k), sha)
      invariant expected == BaselineExpectation(inputs, baseline)[..k]
    {
      var id := BaselineId(inputs, baseline, k);
      ghost var pieces, gap := BaselinePieces(inputs, baseline, k), GapPiece(inputs, baseline.revision, k);
      BaselinePiecesFit(inputs, baseline, k);
      OwnerPieceFits(inputs, id);
      CopyPiece(buffer, inputs, GapPiece(inputs, baseline.revision, k), sha, pieces);
      CopyPiece(buffer, inputs, OwnerPiece(inputs, id), sha, pieces + [gap]);
      assert pieces + [gap] + [OwnerPiece(inputs, id)] == pieces + [gap, OwnerPiece(inputs, id)];
      expected := expected + [(id, SelectedOwner(inputs, id).fingerprint)];
    }
    BaselinePiecesFit(inputs, baseline, |doc.owners|);
    CopyPiece(buffer, inputs, GapPiece(inputs, baseline.revision, |doc.owners|), sha,
              BaselinePieces(inputs, baseline, |doc.owners|));
  }

  /** Append the complete lines of the owners that theirs added. */
  method RenderAdditions(inputs: Inputs, baseline: Baseline, buffer: RenderBuffer, sha: Digest, ghost body: seq<Piece>)
    returns (expected: Option<seq<(string, string)>>)
    requires inputs.Valid() && Spells(buffer, inputs, body, sha)
    modifies buffer
    ensures expected.Some? <==> AdditionsHaveLines(inputs, baseline)
    ensures expected.Some? ==> expected.value == AdditionExpectation(Additions(inputs, baseline))
    ensures expected.Some? ==>
              var additions := Additions(inputs, baseline);
              Spells(buffer, inputs, body + AdditionPieces(inputs, additions, |additions|), sha)
  {
    hide Spells, PhysicalLineRange, Additions, ValidDocument;
    var additions, owners := Additions(inputs, baseline), [];
    AdditionHasOwner(inputs, baseline);
    assert body + AdditionPieces(inputs, additions, 0) == body;
    for k := 0 to |additions|
      invariant forall j :: 0 <= j < k ==> PhysicalLineRange(inputs.theirs, additions[j]).Ok?
      invariant Spells(buffer, inputs, body + AdditionPieces(inputs, additions, k), sha)
      invariant owners == AdditionExpectation(additions)[..k]
    {
      var lineRange := PhysicalLineRange(inputs.theirs, additions[k]);
      if lineRange.Err? {
        return None;
      }
      LinesOfOwnerFit(inputs.theirs, additions[k]);
      var piece := Piece(Theirs, lineRange.value, Some(additions[k].id));
      ghost var pieces := AdditionPieces(inputs, additions, k);
      CopyPiece(buffer, inputs, piece, sha, body + pieces);
      assert body + pieces + [piece] == body + (pieces + [piece]);
      owners := owners + [(additions[k].id, additions[k].fingerprint)];
    }
    return Some(owners);
  }

  method CheckRender(inputs: Inputs, baseline: Baseline, output: ByteString, expected: seq<(string, string)>,
                     reparse: Reparse)
    returns (outcome: Outcome)
    requires Plannable(inputs, baseline) && expected == ExpectedOwners(inputs, baseline)
    ensures outcome == Judge(inputs, baseline, output, reparse(output))
  {
    var rendered := reparse(output);
    if rendered.Err? {
      return Error(ConfigurationError, NotReparsed);
    }
    var defect := Validate(rendered.value);
    if defect.Some? {
      return Error(ConfigurationError, InvalidRender);
    }
    if !ShowsOwners(rendered.value, expected) {
      return Error(ConfigurationError, StructureChanged);
    }
    var doc, layoutMatches := SourceOf(inputs, baseline.revision), false;
    if MembershipChanged(inputs) {
      var renderedLayout := LayoutSegmentsForIds(rendered.value, StableIds(inputs));
      var baselineLayout := LayoutSegmentsForIds(doc, StableIds(inputs));
      if renderedLayout.Err? || baselineLayout.Err? {
        return Error(ConfigurationError, UnreadableLines);
      }
      layoutMatches := renderedLayout.value == baselineLayout.value;
    } else {
      var renderedLayout := LayoutSegments(rendered.value);
      var baselineLayout := LayoutSegments(doc);
      layoutMatches := renderedLayout == baselineLayout;
    }
    if !layoutMatches {
      return Error(ConfigurationError, RenderedLayoutChanged);
    }
    return Clean(output);
  }

  /** What the classification records: the source comparisons, and the decisions unless a whole source was taken. */
  function ClassificationOf(inputs: Inputs): Option<Classification> {
    if !inputs.Valid() then None
    else
      AllOwnerIdsAreKnown(inputs);
      Some(Classification(
        inputs.base.source == inputs.ours.source,
        inputs.base.source == inputs.theirs.source,
        inputs.ours.source == inputs.theirs.source,
        inputs.Shortcut(),
        if inputs.Shortcut().Some? then [] else DecisionsFor(inputs, AllOwnerIds(inputs))))
  }

  /** A whole source as the output. */
  method CopyWholeSource(inputs: Inputs, revision: SourceRevision, buffer: RenderBuffer, sha: Digest)
    requires buffer.output == [] && buffer.segments == []
    modifies buffer
    ensures buffer.output == SourceOf(inputs, revision).source
    ensures EvidenceHolds(buffer.output, inputs.Sources(), buffer.segments, sha)
  {
    var source := SourceOf(inputs, revision).source;
    var piece := Piece(revision, ByteRange(0, |source|), None);
    CopyPiece(buffer, inputs, piece, sha, []);
    RenderedGrows(inputs, [], piece);
    assert source[0..|source|] == source && [] + [piece] == [piece];
  }

  /** The part of `merge_owners` after the decisions. */
  method CombineOwners(inputs: Inputs, selected: map<string, SourceRevision>, reparse: Reparse, buffer: RenderBuffer,
                       sha: Digest)
    returns (outcome: Outcome)
    requires inputs.Valid() && selected == Selected(inputs)
    requires buffer.output == [] && buffer.segments == []
    modifies buffer
    ensures outcome == Combine(inputs, reparse)
    ensures outcome.Clean? ==> EvidenceHolds(outcome.output, inputs.Sources(), buffer.segments, sha)
  {
    hide Inputs.Valid, Selected, LayoutAgreed, OrderAgreed, AdditionsHaveLines, Plannable, BodyPieces, AdditionPieces,
      Additions, ExpectedOwners, Judge;
    assert Spells(buffer, inputs, [], sha);
    hide EvidenceHolds, Rendered, AllFit;
    var choice := ChooseBaseline(selected.Keys, Ids(inputs.ours), Ids(inputs.theirs));
    if choice.None? {
      return Error(UnsupportedFeature, NoCombinedMembership);
    }
    ChosenBaselineIsPlannable(inputs);
    hide ChooseBaseline;
    if !OrderAgreed(inputs) {
      return Error(UnsupportedFeature, NoAgreedOrder);
    }
    var layout := CompareLayouts(inputs);
    if layout.Err? {
      return Error(ConfigurationError, layout.error);
    }
    if !layout.value {
      return Error(UnsupportedFeature, LayoutChanged);
    }
    var expected := RenderBaseline(inputs, choice.value, buffer, sha);
    var added := RenderAdditions(inputs, choice.value, buffer, sha, BodyPieces(inputs, choice.value));
    if added.None? {
      return Error(ConfigurationError, UnreadableLines);
    }
    assert buffer.output == PlannedText(inputs, choice.value);
    assert expected + added.value == ExpectedOwners(inputs, choice.value) by {
      ExpectationSplits(inputs, choice.value);
    }
    outcome := CheckRender(inputs, choice.value, buffer.output, expected + added.value, reparse);
  }

  /** `merge_owners`: a clean outcome leaves the output in the buffer, with evidence for every byte. */
  method MergeOwners(inputs: Inputs, reparse: Reparse, buffer: RenderBuffer, sha: Digest)
    returns (outcome: Outcome, classification: Option<Classification>)
    requires buffer.output == [] && buffer.segments == []
    modifies buffer
    ensures outcome == Merge(inputs, reparse)
    ensures classification == ClassificationOf(inputs)
    ensures outcome.Clean? ==> EvidenceHolds(outcome.output, inputs.Sources(), buffer.segments, sha)
  {
    classification := None;
    var baseDefect := Validate(inputs.base);
    var oursDefect := Validate(inputs.ours);
    var theirsDefect := Validate(inputs.theirs);
    if baseDefect.Some? || oursDefect.Some? || theirsDefect.Some? {
      return Error(Ambiguity, InvalidInput), None;
    }
    var evidence := Classification(
      inputs.base.source == inputs.ours.source,
      inputs.base.source == inputs.theirs.source,
      inputs.ours.source == inputs.theirs.source,
      None,
      []);
    if evidence.oursEqualsTheirs || evidence.baseEqualsTheirs {
      evidence := evidence.(wholeSourceSelection := Some(Ours));
      CopyWholeSource(inputs, Ours, buffer, sha);
      return Clean(buffer.output), Some(evidence);
    }
    if evidence.baseEqualsOurs {
      evidence := evidence.(wholeSourceSelection := Some(Theirs));
      CopyWholeSource(inputs, Theirs, buffer, sha);
      return Clean(buffer.output), Some(evidence);
    }
    assert inputs.Valid();
    hide Inputs.Valid, Conflicts, Selected, Combine;
    var decisions, selected, conflicts := DecideOwners(inputs);
    evidence := evidence.(decisions := decisions);
    classification := Some(evidence);
    if conflicts != [] {
      return Conflict(conflicts), classification;
    }
    outcome := CombineOwners(inputs, selected, reparse, buffer, sha);
  }

  datatype MergeEvidence = MergeEvidence(
    outcome: Outcome,
    segments: seq<Segment>,
    classification: Option<Classification>)

  /**
   * `merge_source_preserving_owners_with_evidence`: the byte evidence of a clean merge always passes
   * its check, so the outcome is never replaced by an evidence error; other outcomes carry no segments.
   */
  method MergeWithEvidence(inputs: Inputs, reparse: Reparse, sha: Digest) returns (evidence: MergeEvidence)
    ensures evidence.outcome == Merge(inputs, reparse)
    ensures evidence.outcome != Error(ConfigurationError, InvalidByteEvidence)
    ensures evidence.classification == ClassificationOf(inputs)
    ensures evidence.outcome.Clean? ==>
              EvidenceHolds(evidence.outcome.output, inputs.Sources(), evidence.segments, sha)
    ensures !evidence.outcome.Clean? ==> evidence.segments == []
  {
    hide Merge, ClassificationOf, EvidenceHolds;
    MergeNeverBlamesEvidence(inputs, reparse);
    var buffer := new RenderBuffer();
    var outcome, classification := MergeOwners(inputs, reparse, buffer, sha);
    var segments := buffer.segments;
    if outcome.Clean? {
      var error := VerifySourceByteSegments(outcome.output, inputs.Sources(), segments, sha);
      if error.Some? {
        outcome := Error(ConfigurationError, InvalidByteEvidence);
      }
    }
    if !outcome.Clean? {
      segments := [];
    }
    return MergeEvidence(outcome, segments, classification);
  }
}
