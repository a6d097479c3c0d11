/** What a merge of owner documents means, whatever the reparse answers. */
module OwnerMergeProperties {
  import opened Wrappers
  import opened Sequences
  import opened Bytes
  import opened Documents
  import opened PhysicalLines
  import opened LineLayout
  import opened ByteEvidence
  import opened OwnerDecisions
  import opened OwnerMerge

  // ----- conflicts are exactly the clashes

  lemma {:induction false} ConflictsInAre(inputs: Inputs, ids: seq<string>)
    requires inputs.Valid() && AllKnown(inputs, ids)
    ensures forall c :: c in ConflictsIn(inputs, ids) <==>
              exists id :: id in ids && inputs.Knows(id) && inputs.Kind(id).IsConflict() && c == inputs.ConflictAt(id)
  {
    if ids != [] {
      hide Inputs.Kind, Inputs.Knows, Inputs.Valid, Inputs.ConflictAt;
      var n := |ids| - 1;
      ConflictsInAre(inputs, ids[..n]);
      assert ids == ids[..n] + [ids[n]];
      assert forall id :: id in ids <==> id in ids[..n] || id == ids[n];
    }
  }

  /** An identity is reported as a conflict just when its three fingerprints clash. */
  lemma ConflictsAreClashes(inputs: Inputs, id: string)
    requires inputs.Valid()
    ensures inputs.Reference(id) == Clash <==> inputs.Knows(id) && inputs.ConflictAt(id) in Conflicts(inputs)
  {
    AllIdsAreKnown(inputs, id);
    AllOwnerIdsAreKnown(inputs);
    ConflictsInAre(inputs, AllOwnerIds(inputs));
    if inputs.Knows(id) {
      ClassifyIsDiff3(Lookup(inputs.base, id), Lookup(inputs.ours, id), Lookup(inputs.theirs, id));
      forall other | inputs.Knows(other) && inputs.ConflictAt(id) == inputs.ConflictAt(other) ensures id == other {
        ConflictNamesOwner(inputs, id);
        ConflictNamesOwner(inputs, other);
      }
    }
  }

  lemma ConflictNamesOwner(inputs: Inputs, id: string)
    requires inputs.Valid() && inputs.Knows(id)
    ensures |inputs.ConflictAt(id).conflictId| == 12 + |id| && inputs.ConflictAt(id).conflictId[12..] == id
  {}

  /** A merge without a whole-source answer conflicts just when some identity clashes. */
  lemma ConflictOutcomeIsClash(inputs: Inputs, reparse: Reparse)
    requires inputs.Valid() && inputs.Shortcut().None?
    ensures Merge(inputs, reparse).Conflict? <==> exists id :: inputs.Reference(id) == Clash
    ensures Merge(inputs, reparse).Conflict? ==>
              forall id :: inputs.Reference(id) == Clash <==>
                           inputs.Knows(id) && inputs.ConflictAt(id) in Merge(inputs, reparse).conflicts
  {
    hide Inputs.Reference, Inputs.ConflictAt, Inputs.Knows, Combine, Conflicts;
    forall id ensures inputs.Reference(id) == Clash <==>
                      inputs.Knows(id) && inputs.ConflictAt(id) in Conflicts(inputs) {
      ConflictsAreClashes(inputs, id);
    }
    CombineDoesNotConflict(inputs, reparse);
    if Conflicts(inputs) != [] {
      assert Conflicts(inputs)[0] in Conflicts(inputs);
      ConflictComesFromOwner(inputs, Conflicts(inputs)[0]);
    }
  }

  lemma ConflictComesFromOwner(inputs: Inputs, conflict: MergeConflict)
    requires inputs.Valid() && conflict in Conflicts(inputs)
    ensures exists id :: inputs.Knows(id) && conflict == inputs.ConflictAt(id)
  {
    AllOwnerIdsAreKnown(inputs);
    ConflictsInAre(inputs, AllOwnerIds(inputs));
  }

  lemma CombineDoesNotConflict(inputs: Inputs, reparse: Reparse)
    requires inputs.Valid()
    ensures !Combine(inputs, reparse).Conflict?
  {
    hide PlannedText, Choice, Plannable;
    if Obstacle(inputs).None? {
      ChosenBaselineIsPlannable(inputs);
    }
  }

  // ----- a clean merge is the diff3 of every owner

  /** Without a clash, an identity is selected just when diff3 keeps a value for it. */
  lemma SelectedIsKept(inputs: Inputs, id: string)
    requires inputs.Valid() && Conflicts(inputs) == []
    ensures id in Selected(inputs) ==>
              inputs.Reference(id) == Keep(Some(SelectedOwner(inputs, id).fingerprint))
    ensures id !in Selected(inputs) ==> inputs.Reference(id) == Keep(None)
  {
    ConflictsAreClashes(inputs, id);
    AllIdsAreKnown(inputs, id);
    if id in Selected(inputs) {
      SelectedIsThere(inputs, id);
    } else if inputs.Knows(id) {
      ClassifyIsDiff3(Lookup(inputs.base, id), Lookup(inputs.ours, id), Lookup(inputs.theirs, id));
    }
  }

  /** Baseline owners and additions are all the selected owners. */
  lemma PlanCoversSelection(inputs: Inputs, id: string)
    requires inputs.Valid() && Choice(inputs).Some?
    ensures var baseline := Choice(inputs).value;
            id in Selected(inputs) <==>
            || id in OwnerIds(SourceOf(inputs, baseline.revision))
            || (exists owner :: owner in Additions(inputs, baseline) && owner.id == id)
  {
    hide Selected, Additions, OwnersById, Inputs.Valid;
    var baseline := Choice(inputs).value;
    AdditionsAreTheirs(inputs, baseline);
    if id in Selected(inputs) && id !in OwnerIds(SourceOf(inputs, baseline.revision)) {
      UncoveredIsAdded(inputs, id);
    }
  }

  /** A selected identity that the baseline lacks is one that theirs added. */
  lemma UncoveredIsAdded(inputs: Inputs, id: string)
    requires inputs.Valid() && Choice(inputs).Some? && id in Selected(inputs)
    requires id !in OwnerIds(SourceOf(inputs, Choice(inputs).value.revision))
    ensures Lookup(inputs.theirs, id).Some? && Lookup(inputs.theirs, id).value.id == id
    ensures Lookup(inputs.theirs, id).value in Additions(inputs, Choice(inputs).value)
  {
    hide Selected, Additions, OwnersById, ValidDocument, OwnerIds;
    AdditionsAreTheirs(inputs, Choice(inputs).value);
    SelectedIsThere(inputs, id);
    IdIsOwned(inputs.ours, id);
    IdIsOwned(inputs.theirs, id);
  }

  /** An added owner is the one that its identity selects. */
  lemma AdditionIsSelected(inputs: Inputs, baseline: Baseline, owner: Owner)
    requires inputs.Valid() && owner in Additions(inputs, baseline)
    ensures owner.id in Selected(inputs) && SelectedOwner(inputs, owner.id) == owner
  {
    hide Selected, Additions, ValidDocument;
    AdditionsAreTheirs(inputs, baseline);
    var k :| 0 <= k < |inputs.theirs.owners| && inputs.theirs.owners[k] == owner;
  }

  /** Each expected owner carries the fingerprint its identity selects. */
  lemma ExpectedIsSelected(inputs: Inputs, baseline: Baseline, k: nat)
    requires Plannable(inputs, baseline) && k < |ExpectedOwners(inputs, baseline)|
    ensures var expected := ExpectedOwners(inputs, baseline)[k];
            expected.0 in Selected(inputs) && expected.1 == SelectedOwner(inputs, expected.0).fingerprint
  {
    hide Selected, SelectedOwner, Additions;
    var n := |SourceOf(inputs, baseline.revision).owners|;
    if k < n {
      assert ExpectedOwners(inputs, baseline)[k].0 == BaselineId(inputs, baseline, k);
    } else {
      AdditionIsSelected(inputs, baseline, Additions(inputs, baseline)[k - n]);
    }
  }

  /** Every selected identity is expected. */
  lemma SelectedIsExpected(inputs: Inputs, id: string)
    requires inputs.Valid() && Choice(inputs).Some? && Plannable(inputs, Choice(inputs).value)
    requires id in Selected(inputs)
    ensures exists k :: 0 <= k < |ExpectedOwners(inputs, Choice(inputs).value)| &&
                        ExpectedOwners(inputs, Choice(inputs).value)[k].0 == id
  {
    hide Selected, Additions, SelectedOwner;
    var baseline := Choice(inputs).value;
    var doc, additions := SourceOf(inputs, baseline.revision), Additions(inputs, baseline);
    var expected := ExpectedOwners(inputs, baseline);
    PlanCoversSelection(inputs, id);
    if id in OwnerIds(doc) {
      var k :| 0 <= k < |doc.owners| && OwnerIds(doc)[k] == id;
      assert expected[k].0 == id;
    } else {
      var k :| 0 <= k < |additions| && additions[k].id == id;
      assert expected[|doc.owners| + k].0 == id;
    }
  }

  /** A document that shows the expected owners gives each identity the fingerprint that was selected. */
  lemma ShownFingerprint(inputs: Inputs, rendered: Document, id: string)
    requires inputs.Valid() && Choice(inputs).Some? && Plannable(inputs, Choice(inputs).value)
    requires ValidDocument(rendered) && ShowsOwners(rendered, ExpectedOwners(inputs, Choice(inputs).value))
    ensures Fingerprint(rendered, id) ==
            if id in Selected(inputs) then Some(SelectedOwner(inputs, id).fingerprint) else None
  {
    hide Selected, SelectedOwner, ExpectedOwners, Choice, Plannable, ValidDocument;
    var expected := ExpectedOwners(inputs, Choice(inputs).value);
    if id in Selected(inputs) {
      SelectedIsExpected(inputs, id);
      var k :| 0 <= k < |expected| && expected[k].0 == id;
      ExpectedIsSelected(inputs, Choice(inputs).value, k);
      assert rendered.owners[k].id == id;
    } else if id in OwnersById(rendered) {
      var k :| 0 <= k < |rendered.owners| && rendered.owners[k].id == id;
      ExpectedIsSelected(inputs, Choice(inputs).value, k);
    }
  }

  // ----- whole sources

  /**
   * Diff3 on whole sources. A tip that differs from the base while the other does not is the result,
   * and so are equal tips, for every reparse.
   */
  lemma WholeSourceIsTaken(inputs: Inputs, reparse: Reparse)
    requires inputs.Valid()
    ensures inputs.base.source == inputs.theirs.source ==> Merge(inputs, reparse) == Clean(inputs.ours.source)
    ensures inputs.base.source == inputs.ours.source ==> Merge(inputs, reparse) == Clean(inputs.theirs.source)
    ensures inputs.ours.source == inputs.theirs.source ==> Merge(inputs, reparse) == Clean(inputs.ours.source)
  {
    hide Inputs.Valid, Conflicts, Combine;
  }

  /** What is recorded about the sources: which are equal, and the tip that was taken whole, if one was. */
  lemma SelectionIsRecorded(inputs: Inputs)
    requires inputs.Valid()
    ensures var base, ours, theirs := inputs.base.source, inputs.ours.source, inputs.theirs.source;
            var record := ClassificationOf(inputs).value;
            && (record.baseEqualsOurs <==> base == ours)
            && (record.baseEqualsTheirs <==> base == theirs)
            && (record.oursEqualsTheirs <==> ours == theirs)
            && (record.wholeSourceSelection == Some(Ours) <==> ours == theirs || base == theirs)
            && (record.wholeSourceSelection == Some(Theirs) <==> base == ours && ours != theirs)
            && (record.wholeSourceSelection == None <==> base != ours && ours != theirs && base != theirs)
            && (record.wholeSourceSelection.Some? ==> record.decisions == [])
  {
    hide Inputs.Valid;
  }

  /** Owners are looked at exactly when the three sources differ. */
  lemma OwnersDecideTheRest(inputs: Inputs)
    ensures inputs.Shortcut().None? <==>
            && inputs.base.source != inputs.ours.source
            && inputs.base.source != inputs.theirs.source
            && inputs.ours.source != inputs.theirs.source
  {}

  /** The reparse of the output of a clean merge that looked at owners. */
  ghost predicate CleanByOwners(inputs: Inputs, reparse: Reparse) {
    inputs.Valid() && inputs.Shortcut().None? && Merge(inputs, reparse).Clean?
  }

  lemma CleanWasChecked(inputs: Inputs, reparse: Reparse)
    requires CleanByOwners(inputs, reparse)
    ensures Conflicts(inputs) == [] && Choice(inputs).Some? && Plannable(inputs, Choice(inputs).value)
    ensures AdditionsHaveLines(inputs, Choice(inputs).value)
    ensures var baseline, output := Choice(inputs).value, Merge(inputs, reparse).output;
            && output == PlannedText(inputs, baseline)
            && reparse(output).Ok?
            && ValidDocument(reparse(output).value)
            && ShowsOwners(reparse(output).value, ExpectedOwners(inputs, baseline))
  {
    hide Conflicts, PlannedText, Choice, Plannable, ExpectedOwners, Inputs.Valid;
    if Obstacle(inputs).None? {
      ChosenBaselineIsPlannable(inputs);
    }
  }

  /**
   * Merge meaning. Whatever the reparse, a clean merge by owners has been reparsed to a valid
   * document in which every identity has exactly its diff3 fingerprint, or is absent exactly when
   * diff3 says so.
   */
  lemma CleanMergeIsDiff3(inputs: Inputs, reparse: Reparse)
    requires CleanByOwners(inputs, reparse)
    ensures reparse(Merge(inputs, reparse).output).Ok?
    ensures var answer := reparse(Merge(inputs, reparse).output).value;
            ValidDocument(answer) && forall id :: inputs.Reference(id) == Keep(Fingerprint(answer, id))
  {
    hide Merge, Inputs.Valid, Inputs.Reference, Choice, Plannable, SelectedOwner, Selected, ExpectedOwners, ShowsOwners,
      ValidDocument, Fingerprint, Conflicts, PlannedText;
    CleanWasChecked(inputs, reparse);
    var rendered := reparse(Merge(inputs, reparse).output).value;
    forall id ensures inputs.Reference(id) == Keep(Fingerprint(rendered, id)) {
      SelectedIsKept(inputs, id);
      ShownFingerprint(inputs, rendered, id);
    }
  }

  function IdsOf(owners: seq<Owner>): seq<string> {
    seq(|owners|, k requires 0 <= k < |owners| => owners[k].id)
  }

  /** The owners of a clean merge are the baseline's, then those that only theirs added, none twice. */
  lemma CleanMergeOrder(inputs: Inputs, reparse: Reparse)
    requires CleanByOwners(inputs, reparse)
    ensures reparse(Merge(inputs, reparse).output).Ok? && Choice(inputs).Some?
    ensures var answer, baseline := reparse(Merge(inputs, reparse).output).value, Choice(inputs).value;
            && OwnerIds(answer) == OwnerIds(SourceOf(inputs, baseline.revision)) + IdsOf(Additions(inputs, baseline))
            && Distinct(OwnerIds(answer))
  {
    hide Merge, Inputs.Valid, Choice, Plannable, SelectedOwner, Selected, Additions, ValidDocument, Conflicts,
      PlannedText;
    CleanWasChecked(inputs, reparse);
    ValidIdsAreDistinct(reparse(Merge(inputs, reparse).output).value);
  }

  /** All the layouts that a clean merge compares are the same layout. */
  ghost predicate SameLayout(inputs: Inputs, answer: Document)
    requires inputs.Valid() && ValidDocument(answer)
  {
    var stable := StableIds(inputs);
    if MembershipChanged(inputs) then
      && stable != {}
      && LinesSeparate(answer) && LinesSeparate(inputs.base)
      && LinesSeparate(inputs.ours) && LinesSeparate(inputs.theirs)
      && StableLayout(answer, stable) == StableLayout(inputs.ours, stable) == StableLayout(inputs.theirs, stable)
      && (StableLayout(answer, stable) == StableLayout(inputs.base, stable) || OrderChanged(inputs))
    else
      Gaps(answer) == Gaps(inputs.base) == Gaps(inputs.ours) == Gaps(inputs.theirs)
  }

  /** A clean merge by owners leaves the layout that both tips agree on; only a reordering may leave the base's. */
  lemma CleanMergeKeepsLayout(inputs: Inputs, reparse: Reparse)
    requires CleanByOwners(inputs, reparse)
    ensures reparse(Merge(inputs, reparse).output).Ok? && ValidDocument(reparse(Merge(inputs, reparse).output).value)
    ensures SameLayout(inputs, reparse(Merge(inputs, reparse).output).value)
  {
    hide Inputs.Valid, ValidDocument, Conflicts, PlannedText, Plannable, ExpectedOwners, Choice, LinesSeparate,
      StableLayout, StableIds, MembershipChanged, OrderChanged, OrderAgreed, Gaps;
    var baseline := Choice(inputs).value;
    CleanWasChecked(inputs, reparse);
    if OrderChanged(inputs) {
      OrderChangeIsMembershipChange(inputs);
    }
    BaselineIsTip(inputs);
  }

  lemma BaselineIsTip(inputs: Inputs)
    requires inputs.Valid() && Choice(inputs).Some?
    ensures Choice(inputs).value.revision != Base
  {
    hide Inputs.Valid;
  }

  // ----- the bytes of a clean merge

  /** The bytes that stand for each baseline owner. */
  function SelectedBytes(inputs: Inputs, baseline: Baseline): (owned: seq<ByteString>)
    requires Plannable(inputs, baseline)
    ensures |owned| == |SourceOf(inputs, baseline.revision).owners|
  {
    seq(|SourceOf(inputs, baseline.revision).owners|,
        k requires 0 <= k < |SourceOf(inputs, baseline.revision).owners| =>
      OwnerPieceFits(inputs, BaselineId(inputs, baseline, k));
      PieceBytes(inputs.Sources(), OwnerPiece(inputs, BaselineId(inputs, baseline, k))))
  }

  lemma {:induction false} BaselineTextIsWoven(inputs: Inputs, baseline: Baseline, k: nat)
    requires Plannable(inputs, baseline) && k <= |SourceOf(inputs, baseline.revision).owners|
    ensures AllFit(inputs, BaselinePieces(inputs, baseline, k))
    ensures Rendered(inputs.Sources(), BaselinePieces(inputs, baseline, k)) ==
            Woven(Gaps(SourceOf(inputs, baseline.revision)), SelectedBytes(inputs, baseline), k)
  {
    hide Selected, SelectedOwner, OwnerPiece, ValidDocument, IdentityFits, BytesFit;
    BaselinePiecesFit(inputs, baseline, k);
    if k > 0 {
      hide AllFit, Rendered;
      var id, before := BaselineId(inputs, baseline, k - 1), BaselinePieces(inputs, baseline, k - 1);
      var gap, owned := GapPiece(inputs, baseline.revision, k - 1), OwnerPiece(inputs, id);
      BaselineTextIsWoven(inputs, baseline, k - 1);
      BaselinePiecesFit(inputs, baseline, k - 1);
      OwnerPieceFits(inputs, id);
      RenderedGrows(inputs, before, gap);
      RenderedGrows(inputs, before + [gap], owned);
      assert before + [gap] + [owned] == before + [gap, owned];
      assert PieceBytes(inputs.Sources(), gap) == Gaps(SourceOf(inputs, baseline.revision))[k - 1];
    }
  }

  /** The complete lines of each added owner. */
  function AddedLines(inputs: Inputs, baseline: Baseline): seq<ByteString>
    requires Plannable(inputs, baseline) && AdditionsHaveLines(inputs, baseline)
  {
    AdditionHasOwner(inputs, baseline);
    seq(|Additions(inputs, baseline)|, k requires 0 <= k < |Additions(inputs, baseline)| =>
      LinesOfOwnerFit(inputs.theirs, Additions(inputs, baseline)[k]);
      var range := PhysicalLineRange(inputs.theirs, Additions(inputs, baseline)[k]).value;
      inputs.theirs.source[range.start..range.end])
  }

  lemma {:induction false} AdditionsFollow(inputs: Inputs, baseline: Baseline, body: seq<Piece>, k: nat)
    requires Plannable(inputs, baseline) && AdditionsHaveLines(inputs, baseline)
    requires k <= |Additions(inputs, baseline)| && AllFit(inputs, body)
    ensures |AddedLines(inputs, baseline)| == |Additions(inputs, baseline)|
    ensures AllFit(inputs, body + AdditionPieces(inputs, Additions(inputs, baseline), k))
    ensures Rendered(inputs.Sources(), body + AdditionPieces(inputs, Additions(inputs, baseline), k)) ==
            Rendered(inputs.Sources(), body) + Flatten(AddedLines(inputs, baseline)[..k])
  {
    hide PhysicalLineRange, Additions, Inputs.Valid, Selected, AddedLines, Rendered, Flatten;
    AddedLinesLength(inputs, baseline);
    var additions, lines := Additions(inputs, baseline), AddedLines(inputs, baseline);
    if k == 0 {
      assert body + [] == body && lines[..0] == [];
      FlattenNone(lines[..0]);
    } else {
      AdditionsFollow(inputs, baseline, body, k - 1);
      AddedLineAt(inputs, baseline, k - 1);
      hide AllFit, PieceFits;
      var before := AdditionPieces(inputs, additions, k - 1);
      var piece := Piece(Theirs, PhysicalLineRange(inputs.theirs, additions[k - 1]).value, Some(additions[k - 1].id));
      RenderedGrows(inputs, body + before, piece);
      assert body + before + [piece] == body + AdditionPieces(inputs, additions, k);
      assert lines[..k] == lines[..k - 1] + [lines[k - 1]];
      FlattenSnoc(lines[..k - 1], lines[k - 1]);
    }
  }

  lemma AddedLineAt(inputs: Inputs, baseline: Baseline, k: nat)
    requires Plannable(inputs, baseline) && AdditionsHaveLines(inputs, baseline)
    requires k < |Additions(inputs, baseline)|
    ensures var owner := Additions(inputs, baseline)[k];
            var piece := Piece(Theirs, PhysicalLineRange(inputs.theirs, owner).value, Some(owner.id));
            && PieceFits(inputs.Sources(), piece)
            && k < |AddedLines(inputs, baseline)|
            && AddedLines(inputs, baseline)[k] == PieceBytes(inputs.Sources(), piece)
  {
    hide PhysicalLineRange, Additions, ValidDocument;
    AdditionHasOwner(inputs, baseline);
    LinesOfOwnerFit(inputs.theirs, Additions(inputs, baseline)[k]);
  }

  /** The output is the baseline's gaps woven with the selected owners, then the added owners' lines. */
  lemma PlannedTextIsWoven(inputs: Inputs, baseline: Baseline)
    requires Plannable(inputs, baseline) && AdditionsHaveLines(inputs, baseline)
    ensures PlannedText(inputs, baseline) ==
            Weave(Gaps(SourceOf(inputs, baseline.revision)), SelectedBytes(inputs, baseline))
            + Flatten(AddedLines(inputs, baseline))
  {
    hide Selected, Additions, AdditionPieces, BaselinePieces, AddedLines, SelectedBytes, ValidDocument;
    var n, additions := |SourceOf(inputs, baseline.revision).owners|, Additions(inputs, baseline);
    BaselineTextIsWoven(inputs, baseline, n);
    BaselinePiecesFit(inputs, baseline, n);
    RenderedGrows(inputs, BaselinePieces(inputs, baseline, n), GapPiece(inputs, baseline.revision, n));
    PlanFits(inputs, baseline);
    AdditionsFollow(inputs, baseline, BodyPieces(inputs, baseline), |additions|);
    AddedLinesLength(inputs, baseline);
    assert AddedLines(inputs, baseline)[..|additions|] == AddedLines(inputs, baseline);
    assert PieceBytes(inputs.Sources(), GapPiece(inputs, baseline.revision, n)) ==
           Gaps(SourceOf(inputs, baseline.revision))[n];
  }

  lemma AddedLinesLength(inputs: Inputs, baseline: Baseline)
    requires Plannable(inputs, baseline) && AdditionsHaveLines(inputs, baseline)
    ensures |AddedLines(inputs, baseline)| == |Additions(inputs, baseline)|
  {}

  /** The bytes of a clean merge by owners. */
  lemma CleanMergeBytes(inputs: Inputs, reparse: Reparse)
    requires CleanByOwners(inputs, reparse)
    ensures Choice(inputs).Some? && Plannable(inputs, Choice(inputs).value)
    ensures AdditionsHaveLines(inputs, Choice(inputs).value)
    ensures var baseline := Choice(inputs).value;
            Merge(inputs, reparse).output ==
            Weave(Gaps(SourceOf(inputs, baseline.revision)), SelectedBytes(inputs, baseline))
            + Flatten(AddedLines(inputs, baseline))
  {
    hide Merge, Choice, Plannable, AdditionsHaveLines, PlannedText, Gaps, SelectedBytes, AddedLines;
    CleanWasChecked(inputs, reparse);
    PlannedTextIsWoven(inputs, Choice(inputs).value);
  }

  // ----- completeness: aligned owners and layout merge cleanly

  /** The text does not start in the middle of a character. */
  predicate StartsCharacter(s: ByteString) {
    s == [] || !IsContinuation(s[0])
  }

  lemma BoundaryBetween(a: ByteString, b: ByteString)
    requires StartsCharacter(b)
    ensures IsCharBoundary(a + b, |a|)
  {}

  lemma SliceStartsCharacter(s: ByteString, a: nat, b: nat)
    requires ValidUtf8(s) && a <= b <= |s| && IsCharBoundary(s, a)
    ensures StartsCharacter(s[a..b])
  {
    if a == 0 && s != [] {
      FirstByteStartsCharacter(s);
    }
  }

  predicate AllStartCharacters(pieces: seq<ByteString>) {
    forall k :: 0 <= k < |pieces| ==> StartsCharacter(pieces[k])
  }

  /** What is woven after the first `k` slots. */
  function Remainder(gaps: seq<ByteString>, owned: seq<ByteString>, k: nat): ByteString
    requires |gaps| == |owned| + 1 && k <= |owned|
    decreases |owned| - k
  {
    if k == |owned| then gaps[k] else gaps[k] + owned[k] + Remainder(gaps, owned, k + 1)
  }

  lemma {:induction false} WeaveSplits(gaps: seq<ByteString>, owned: seq<ByteString>, k: nat)
    requires |gaps| == |owned| + 1 && k <= |owned|
    ensures Weave(gaps, owned) == Woven(gaps, owned, k) + Remainder(gaps, owned, k)
    decreases |owned| - k
  {
    if k < |owned| {
      WeaveSplits(gaps, owned, k + 1);
      var rest := Remainder(gaps, owned, k + 1);
      assert Woven(gaps, owned, k) + gaps[k] + owned[k] + rest == Woven(gaps, owned, k) + (gaps[k] + owned[k] + rest);
    }
  }

  lemma {:induction false} RemainderStartsCharacter(gaps: seq<ByteString>, owned: seq<ByteString>, k: nat)
    requires |gaps| == |owned| + 1 && k <= |owned|
    requires AllStartCharacters(gaps) && AllStartCharacters(owned)
    ensures StartsCharacter(Remainder(gaps, owned, k))
    decreases |owned| - k
  {
    if k < |owned| {
      RemainderStartsCharacter(gaps, owned, k + 1);
    }
  }

  lemma WovenNext(gaps: seq<ByteString>, owned: seq<ByteString>, k: nat)
    requires k < |owned| < |gaps|
    ensures Woven(gaps, owned, k + 1) == Woven(gaps, owned, k) + gaps[k] + owned[k]
  {}

  lemma PlacedAfterWoven(doc: Document, gaps: seq<ByteString>, owned: seq<ByteString>, k: nat)
    requires |gaps| == |owned| + 1 && PlacedAt(doc, gaps, owned) && k < |owned|
    ensures PriorEnd(doc, k) == |Woven(gaps, owned, k)|
  {}

  /** Placed owners start and end at character boundaries of the woven text. */
  lemma PlacedBytesFit(doc: Document, gaps: seq<ByteString>, owned: seq<ByteString>, k: nat)
    requires |gaps| == |owned| + 1 && PlacedAt(doc, gaps, owned) && k < |owned|
    requires AllStartCharacters(gaps) && AllStartCharacters(owned) && owned[k] != []
    ensures BytesFit(doc, k) && PriorEnd(doc, k) <= doc.owners[k].start
  {
    hide Woven, Remainder, IsCharBoundary;
    WeaveSplits(gaps, owned, k + 1);
    RemainderStartsCharacter(gaps, owned, k + 1);
    var before, rest := Woven(gaps, owned, k) + gaps[k], Remainder(gaps, owned, k + 1);
    WovenNext(gaps, owned, k);
    Associative(before, owned[k], rest);
    BoundaryBetween(before, owned[k] + rest);
    BoundaryBetween(before + owned[k], rest);
    PlacedAfterWoven(doc, gaps, owned, k);
  }

  /** All three documents list the same owners in the same order and leave the same layout around them. */
  predicate Aligned(inputs: Inputs)
    requires inputs.Valid()
  {
    && OwnerIds(inputs.base) == OwnerIds(inputs.ours) == OwnerIds(inputs.theirs)
    && Gaps(inputs.base) == Gaps(inputs.ours) == Gaps(inputs.theirs)
  }

  const OURS := Baseline(Ours, false)

  lemma AlignedHasNoObstacle(inputs: Inputs)
    requires inputs.Valid() && Aligned(inputs) && Conflicts(inputs) == []
    ensures Choice(inputs) == Some(OURS) && Obstacle(inputs) == None
    ensures Plannable(inputs, OURS) && AdditionsHaveLines(inputs, OURS) && Additions(inputs, OURS) == []
    ensures !MembershipChanged(inputs)
  {
    AlignedSelectsOurs(inputs);
    hide Selected, Conflicts;
    ChosenBaselineIsPlannable(inputs);
  }

  lemma AlignedSelectsOurs(inputs: Inputs)
    requires inputs.Valid() && Aligned(inputs) && Conflicts(inputs) == []
    ensures Selected(inputs).Keys == Ids(inputs.ours)
  {
    hide Selected, Conflicts, Gaps, Inputs.Valid;
    forall id ensures id in Selected(inputs) <==> id in Ids(inputs.ours) {
      AlignedSelection(inputs, id);
    }
  }

  lemma AlignedSelection(inputs: Inputs, id: string)
    requires inputs.Valid() && Aligned(inputs) && Conflicts(inputs) == []
    ensures id in Selected(inputs) <==> id in OwnerIds(inputs.ours)
  {
    hide Selected, Conflicts, Gaps, OwnersById, ValidDocument, OwnerIds;
    IdIsOwned(inputs.base, id);
    IdIsOwned(inputs.ours, id);
    IdIsOwned(inputs.theirs, id);
    SelectedIsKept(inputs, id);
    if id in Selected(inputs) {
      SelectedIsThere(inputs, id);
    }
  }

  /** A reparse that finds the owners of an aligned merge where they were rendered. */
  ghost predicate Faithful(inputs: Inputs, rendered: Document)
    requires Plannable(inputs, OURS)
  {
    && PlacedAt(rendered, Gaps(inputs.ours), SelectedBytes(inputs, OURS))
    && ShowsOwners(rendered, ExpectedOwners(inputs, OURS))
    && forall k :: 0 <= k < |rendered.owners| ==> LinesFit(rendered, k)
  }

  lemma SelectedBytesStartCharacters(inputs: Inputs, k: nat)
    requires Plannable(inputs, OURS) && k < |inputs.ours.owners|
    requires ValidUtf8(inputs.base.source) && ValidUtf8(inputs.ours.source) && ValidUtf8(inputs.theirs.source)
    ensures StartsCharacter(SelectedBytes(inputs, OURS)[k]) && SelectedBytes(inputs, OURS)[k] != []
  {
    hide Selected, ValidUtf8;
    var id := BaselineId(inputs, OURS, k);
    var doc, owner := SourceOf(inputs, Selected(inputs)[id]), SelectedOwner(inputs, id);
    var j :| 0 <= j < |doc.owners| && doc.owners[j] == owner;
    assert OwnerFits(doc, j);
    SliceStartsCharacter(doc.source, owner.start, owner.end);
  }

  lemma GapStartsCharacter(doc: Document, k: nat)
    requires ValidDocument(doc) && ValidUtf8(doc.source) && k <= |doc.owners|
    ensures StartsCharacter(Gap(doc, k))
  {
    hide ValidUtf8;
    GapIsRange(doc, k);
    if k > 0 {
      assert OwnerFits(doc, k - 1);
    }
    SliceStartsCharacter(doc.source, PriorEnd(doc, k), NextStart(doc, k));
  }

  predicate TextsAreUtf8(inputs: Inputs) {
    ValidUtf8(inputs.base.source) && ValidUtf8(inputs.ours.source) && ValidUtf8(inputs.theirs.source)
  }

  lemma PiecesStartCharacters(inputs: Inputs)
    requires Plannable(inputs, OURS) && TextsAreUtf8(inputs)
    ensures AllStartCharacters(Gaps(inputs.ours)) && AllStartCharacters(SelectedBytes(inputs, OURS))
    ensures forall k :: 0 <= k < |inputs.ours.owners| ==> SelectedBytes(inputs, OURS)[k] != []
  {
    hide SelectedBytes, ValidUtf8, Selected;
    var gaps, owned := Gaps(inputs.ours), SelectedBytes(inputs, OURS);
    forall k | 0 <= k < |gaps| ensures StartsCharacter(gaps[k]) {
      GapStartsCharacter(inputs.ours, k);
    }
    forall k | 0 <= k < |owned| ensures StartsCharacter(owned[k]) && owned[k] != [] {
      SelectedBytesStartCharacters(inputs, k);
    }
  }

  lemma FaithfulIsValid(inputs: Inputs, rendered: Document)
    requires Plannable(inputs, OURS) && Faithful(inputs, rendered) && TextsAreUtf8(inputs)
    ensures ValidDocument(rendered)
  {
    hide Plannable, Faithful, TextsAreUtf8, OwnerFits;
    forall k | 0 <= k < |rendered.owners| ensures OwnerFits(rendered, k) {
      FaithfulOwnerFits(inputs, rendered, k);
    }
  }

  lemma FaithfulOwnerFits(inputs: Inputs, rendered: Document, k: nat)
    requires Plannable(inputs, OURS) && Faithful(inputs, rendered) && TextsAreUtf8(inputs) && k < |rendered.owners|
    ensures OwnerFits(rendered, k)
  {
    hide TextsAreUtf8, AllStartCharacters, BytesFit, IdentityFits, ShowsOwners, ExpectedOwners, Weave, PlacedStart;
    PiecesStartCharacters(inputs);
    PlacedBytesFit(rendered, Gaps(inputs.ours), SelectedBytes(inputs, OURS), k);
    FaithfulIdentity(inputs, rendered, k);
  }

  lemma FaithfulIdentity(inputs: Inputs, rendered: Document, k: nat)
    requires Plannable(inputs, OURS) && Faithful(inputs, rendered) && k < |rendered.owners|
    ensures IdentityFits(rendered, k)
  {
    hide SelectedBytes, Gaps, PlacedAt, BytesFit;
    assert |rendered.owners| == |inputs.ours.owners| by {
      FaithfulLength(inputs, rendered);
    }
    assert OwnerFits(inputs.ours, k);
    forall j | 0 <= j <= k ensures rendered.owners[j].id == inputs.ours.owners[j].id {
      assert ExpectedOwners(inputs, OURS)[j].0 == BaselineId(inputs, OURS, j);
    }
  }

  lemma FaithfulLength(inputs: Inputs, rendered: Document)
    requires Plannable(inputs, OURS) && Faithful(inputs, rendered)
    ensures |rendered.owners| == |inputs.ours.owners|
  {}

  predicate NoClash(inputs: Inputs)
    requires inputs.Valid()
  {
    Conflicts(inputs) == []
  }

  /** The common gaps around the selected owners. */
  function AlignedText(inputs: Inputs): ByteString
    requires inputs.Valid() && Aligned(inputs) && NoClash(inputs)
  {
    AlignedHasNoObstacle(inputs);
    Weave(Gaps(inputs.ours), SelectedBytes(inputs, OURS))
  }

  /** The reparse answers, and finds the owners where they were rendered. */
  ghost predicate FindsOwners(inputs: Inputs, reparse: Reparse)
    requires inputs.Valid() && Aligned(inputs) && NoClash(inputs)
  {
    AlignedHasNoObstacle(inputs);
    reparse(AlignedText(inputs)).Ok? && Faithful(inputs, reparse(AlignedText(inputs)).value)
  }

  /**
   * Layout completeness. Aligned documents without a clash merge cleanly under every reparse that
   * finds the owners where they were rendered: the output is the common gaps around the selected
   * owners, and cutting it at the reported owners gives gaps and owners back.
   */
  lemma AlignedMergeIsClean(inputs: Inputs, reparse: Reparse)
    requires inputs.Valid() && inputs.Shortcut().None? && TextsAreUtf8(inputs)
    requires Aligned(inputs) && NoClash(inputs) && FindsOwners(inputs, reparse)
    ensures Plannable(inputs, OURS)
    ensures Merge(inputs, reparse) == Clean(AlignedText(inputs))
    ensures var rendered := reparse(AlignedText(inputs)).value;
            && ValidDocument(rendered)
            && Gaps(rendered) == Gaps(inputs.base)
            && AllOwnerBytes(rendered) == SelectedBytes(inputs, OURS)
  {
    AlignedHasNoObstacle(inputs);
    AlignedTextIsPlanned(inputs);
    hide TextsAreUtf8, Gaps, SelectedBytes, Plannable, Obstacle, Faithful, Choice, PlannedText, Judge, AlignedText,
      OwnerIds, ValidDocument, Inputs.Valid, AllOwnerBytes, MembershipChanged, AdditionsHaveLines, Additions;
    var rendered := reparse(AlignedText(inputs)).value;
    FaithfulIsValid(inputs, rendered);
    FaithfulIsAccepted(inputs, rendered);
  }

  lemma AlignedTextIsPlanned(inputs: Inputs)
    requires inputs.Valid() && Aligned(inputs) && NoClash(inputs)
    requires Plannable(inputs, OURS) && AdditionsHaveLines(inputs, OURS) && Additions(inputs, OURS) == []
    ensures PlannedText(inputs, OURS) == AlignedText(inputs)
  {
    hide Gaps, SelectedBytes, Plannable, PlannedText, AddedLines, Weave;
    PlannedTextIsWoven(inputs, OURS);
    AddedNothing(inputs);
  }

  lemma AddedNothing(inputs: Inputs)
    requires Plannable(inputs, OURS) && AdditionsHaveLines(inputs, OURS) && Additions(inputs, OURS) == []
    ensures Flatten(AddedLines(inputs, OURS)) == []
  {}

  lemma FaithfulIsAccepted(inputs: Inputs, rendered: Document)
    requires Plannable(inputs, OURS) && Aligned(inputs) && !MembershipChanged(inputs)
    requires ValidDocument(rendered) && Faithful(inputs, rendered)
    ensures Gaps(rendered) == Gaps(inputs.ours) && AllOwnerBytes(rendered) == SelectedBytes(inputs, OURS)
    ensures forall output :: Judge(inputs, OURS, output, Ok(rendered)) == Clean(output)
  {
    RecutWoven(rendered, Gaps(inputs.ours), SelectedBytes(inputs, OURS));
  }

  /** No conflict is reported just when no identity clashes. */
  lemma NoClashIsNoConflict(inputs: Inputs)
    requires inputs.Valid()
    ensures NoClash(inputs) <==> forall id :: inputs.Reference(id) != Clash
  {
    hide Inputs.Reference, Inputs.Knows, Inputs.ConflictAt, Conflicts;
    forall id ensures inputs.Reference(id) == Clash <==>
                      inputs.Knows(id) && inputs.ConflictAt(id) in Conflicts(inputs) {
      ConflictsAreClashes(inputs, id);
    }
    if Conflicts(inputs) != [] {
      assert Conflicts(inputs)[0] in Conflicts(inputs);
      ConflictComesFromOwner(inputs, Conflicts(inputs)[0]);
    }
  }

  // ----- exchanging the tips

  lemma ReferenceIsSymmetric(inputs: Inputs, id: string)
    requires inputs.Valid()
    ensures inputs.Swapped().Valid() && inputs.Swapped().Reference(id) == inputs.Reference(id)
  {}

  /** Exchanging the tips takes the same whole source, or conflicts on exactly the same owners. */
  lemma SwapKeepsConflicts(inputs: Inputs, reparse: Reparse, otherReparse: Reparse)
    requires inputs.Valid()
    ensures var outcome, swapped := Merge(inputs, reparse), Merge(inputs.Swapped(), otherReparse);
            && (inputs.Shortcut().Some? <==> inputs.Swapped().Shortcut().Some?)
            && (inputs.Shortcut().Some? ==> outcome.Clean? && outcome == swapped)
            && (outcome.Conflict? <==> swapped.Conflict?)
            && (outcome.Conflict? ==>
                  forall id :: inputs.Knows(id) && inputs.ConflictAt(id) in outcome.conflicts <==>
                               inputs.Swapped().Knows(id) && inputs.Swapped().ConflictAt(id) in swapped.conflicts)
  {
    hide Inputs.Reference, Inputs.ConflictAt, Inputs.Knows, Merge, Inputs.Valid;
    forall id ensures inputs.Swapped().Valid() && inputs.Swapped().Reference(id) == inputs.Reference(id) {
      ReferenceIsSymmetric(inputs, id);
    }
    ReferenceIsSymmetric(inputs, "");
    if inputs.Shortcut().None? {
      ConflictOutcomeIsClash(inputs, reparse);
      ConflictOutcomeIsClash(inputs.Swapped(), otherReparse);
    } else {
      ShortcutIsSymmetric(inputs, reparse, otherReparse);
    }
  }

  lemma ShortcutIsSymmetric(inputs: Inputs, reparse: Reparse, otherReparse: Reparse)
    requires inputs.Valid() && inputs.Swapped().Valid() && inputs.Shortcut().Some?
    ensures inputs.Swapped().Shortcut().Some?
    ensures Merge(inputs, reparse).Clean? && Merge(inputs, reparse) == Merge(inputs.Swapped(), otherReparse)
  {}

  /** When both orders merge cleanly, they agree on every owner. */
  lemma SwapKeepsMeaning(inputs: Inputs, reparse: Reparse, otherReparse: Reparse, id: string)
    requires CleanByOwners(inputs, reparse) && CleanByOwners(inputs.Swapped(), otherReparse)
    ensures var answer, other := reparse(Merge(inputs, reparse).output),
            otherReparse(Merge(inputs.Swapped(), otherReparse).output);
            && answer.Ok? && other.Ok? && ValidDocument(answer.value) && ValidDocument(other.value)
            && Fingerprint(answer.value, id) == Fingerprint(other.value, id)
  {
    hide Inputs.Reference, Merge, ValidDocument, Fingerprint;
    CleanMergeIsDiff3(inputs, reparse);
    CleanMergeIsDiff3(inputs.Swapped(), otherReparse);
    ReferenceIsSymmetric(inputs, id);
  }
}
