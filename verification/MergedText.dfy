/** No cut of either renderer falls inside a character, so every piece and every output is text. */
module MergedText {
  import opened Sequences
  import opened Bytes
  import opened Documents
  import opened PhysicalLines
  import opened ByteEvidence
  import opened OwnerDecisions
  import opened OwnerMerge
  import P = OwnerMergeProperties
  import R = DirectionalRender

  /** The range may be cut out of the text: it lies inside and both ends are character boundaries. */
  predicate CutsText(s: ByteString, range: ByteRange) {
    range.start <= range.end <= |s| && IsCharBoundary(s, range.start) && IsCharBoundary(s, range.end)
  }

  // ----- the three-way merge

  predicate Sliceable(inputs: Inputs, piece: Piece) {
    CutsText(SourceOf(inputs, piece.revision).source, piece.range)
  }

  predicate AllSliceable(inputs: Inputs, pieces: seq<Piece>) {
    forall k :: 0 <= k < |pieces| ==> Sliceable(inputs, pieces[k])
  }

  lemma SlotEndsAreBoundaries(doc: Document, k: nat)
    requires ValidDocument(doc) && k <= |doc.owners|
    ensures CutsText(doc.source, GapRange(doc, k))
  {
    GapIsRange(doc, k);
    if k > 0 {
      assert OwnerFits(doc, k - 1);
    }
    if k < |doc.owners| {
      assert OwnerFits(doc, k);
    }
  }

  lemma OwnerIsSliceable(inputs: Inputs, id: string)
    requires inputs.Valid() && id in Selected(inputs)
    ensures Sliceable(inputs, OwnerPiece(inputs, id))
  {
    var owner, doc := SelectedOwner(inputs, id), SourceOf(inputs, Selected(inputs)[id]);
    hide Selected, SelectedOwner;
    var k :| 0 <= k < |doc.owners| && doc.owners[k] == owner;
    assert OwnerFits(doc, k);
  }

  lemma {:induction false} BaselineIsSliceable(inputs: Inputs, baseline: Baseline, k: nat)
    requires Plannable(inputs, baseline) && k <= |SourceOf(inputs, baseline.revision).owners|
    ensures AllSliceable(inputs, BaselinePieces(inputs, baseline, k))
    ensures Sliceable(inputs, GapPiece(inputs, baseline.revision, k))
  {
    hide Selected, SelectedOwner, OwnerPiece, ValidDocument, BaselineId, CutsText;
    SlotEndsAreBoundaries(SourceOf(inputs, baseline.revision), k);
    if k > 0 {
      BaselineIsSliceable(inputs, baseline, k - 1);
      OwnerIsSliceable(inputs, BaselineId(inputs, baseline, k - 1));
    }
  }

  lemma {:induction false} AdditionsAreSliceable(inputs: Inputs, additions: seq<Owner>, k: nat)
    requires ValidDocument(inputs.theirs) && ValidUtf8(inputs.theirs.source) && k <= |additions|
    requires forall j :: 0 <= j < |additions| ==> additions[j] in inputs.theirs.owners
    requires forall j :: 0 <= j < k ==> PhysicalLineRange(inputs.theirs, additions[j]).Ok?
    ensures AllSliceable(inputs, AdditionPieces(inputs, additions, k))
  {
    hide PhysicalLineRange, ValidUtf8, ValidDocument, IsCharBoundary;
    if k > 0 {
      AdditionsAreSliceable(inputs, additions, k - 1);
      LinesOfOwnerFit(inputs.theirs, additions[k - 1]);
      LineRangesAreSliceable(inputs.theirs, additions[k - 1]);
    }
  }

  /** Every planned piece of a merge of texts starts and ends between characters. */
  lemma PlanIsSliceable(inputs: Inputs, baseline: Baseline)
    requires Plannable(inputs, baseline) && AdditionsHaveLines(inputs, baseline) && ValidUtf8(inputs.theirs.source)
    ensures AllSliceable(inputs, Plan(inputs, baseline))
  {
    hide Selected, BaselinePieces, AdditionPieces, Additions, PhysicalLineRange, ValidDocument, GapPiece, CutsText,
      ValidUtf8;
    BaselineIsSliceable(inputs, baseline, |SourceOf(inputs, baseline.revision).owners|);
    AdditionsAreTheirs(inputs, baseline);
    AdditionsAreSliceable(inputs, Additions(inputs, baseline), |Additions(inputs, baseline)|);
  }

  lemma {:induction false} RenderedIsText(inputs: Inputs, pieces: seq<Piece>)
    requires P.TextsAreUtf8(inputs) && AllSliceable(inputs, pieces) && AllFit(inputs, pieces)
    ensures ValidUtf8(Rendered(inputs.Sources(), pieces))
  {
    hide ValidUtf8, IsCharBoundary;
    if pieces == [] {
      NothingIsText();
    } else {
      var n := |pieces| - 1;
      RenderedIsText(inputs, pieces[..n]);
      assert Sliceable(inputs, pieces[n]);
      SliceIsUtf8(SourceOf(inputs, pieces[n].revision).source, pieces[n].range);
      JoinIsUtf8(Rendered(inputs.Sources(), pieces[..n]), PieceBytes(inputs.Sources(), pieces[n]));
    }
  }

  lemma NothingIsText()
    ensures ValidUtf8([])
  {}

  lemma PlannedTextIsText(inputs: Inputs, baseline: Baseline)
    requires Plannable(inputs, baseline) && AdditionsHaveLines(inputs, baseline) && P.TextsAreUtf8(inputs)
    ensures ValidUtf8(PlannedText(inputs, baseline))
  {
    hide ValidUtf8, Plannable, Plan, Rendered, AllFit, AllSliceable, AdditionsHaveLines;
    PlanFits(inputs, baseline);
    PlanIsSliceable(inputs, baseline);
    RenderedIsText(inputs, Plan(inputs, baseline));
  }

  /** A shortcut returns one of the sources. */
  lemma ShortcutIsText(inputs: Inputs, reparse: Reparse)
    requires P.TextsAreUtf8(inputs) && Merge(inputs, reparse).Clean? && inputs.Shortcut().Some?
    ensures ValidUtf8(Merge(inputs, reparse).output)
  {
    hide ValidUtf8, Conflicts, Combine, Inputs.Valid;
  }

  /** The clean output of a merge of texts is text, for every reparse. */
  lemma CleanOutputIsText(inputs: Inputs, reparse: Reparse)
    requires P.TextsAreUtf8(inputs) && Merge(inputs, reparse).Clean?
    ensures ValidUtf8(Merge(inputs, reparse).output)
  {
    hide ValidUtf8, Conflicts, Combine, Inputs.Valid, Choice, Plannable, PlannedText, AdditionsHaveLines,
      Inputs.Shortcut, P.TextsAreUtf8;
    if inputs.Shortcut().Some? {
      ShortcutIsText(inputs, reparse);
    } else {
      P.CleanWasChecked(inputs, reparse);
      PlannedTextIsText(inputs, Choice(inputs).value);
    }
  }

  // ----- the directional renderer

  predicate PieceCuts(input: R.Input, piece: R.Piece) {
    CutsText(R.SourceOf(input, piece).bytes, piece.range)
  }

  predicate AllCut(input: R.Input, pieces: seq<R.Piece>) {
    forall k :: 0 <= k < |pieces| ==> PieceCuts(input, pieces[k])
  }

  lemma InsertedRangeCuts(input: R.Input, insertions: seq<R.Insertion>, insertion: R.Insertion)
    requires input.Matched() && R.PlanFits(input, insertions) && insertion in insertions
    ensures CutsText(input.incoming.source, insertion.range)
  {
    hide Distinct, R.Input.Additions, R.PairwiseApart, IsCharBoundary;
    var k :| 0 <= k < |insertions| && insertions[k] == insertion;
    assert R.InsertionFits(input, insertions[k]);
    R.OwnerIsSliceable(input.incoming, insertion.ownerId);
  }

  lemma PlacedRangesCut(input: R.Input, insertions: seq<R.Insertion>, k: nat, j: nat)
    requires input.Matched() && R.PlanFits(input, insertions) && k <= |input.current.owners|
    requires j < |R.At(input.current, insertions, k)|
    ensures CutsText(input.incoming.source, R.At(input.current, insertions, k)[j].range)
  {
    hide R.Input.Matched, R.PlanFits, CutsText;
    assert R.At(input.current, insertions, k)[j] in insertions by {
      var anchor := R.Anchor(input.current, k);
      FilterMembers(insertions, (i: R.Insertion) => i.before == anchor);
    }
    InsertedRangeCuts(input, insertions, R.At(input.current, insertions, k)[j]);
  }

  lemma {:induction false} SlotPiecesCut(input: R.Input, insertions: seq<R.Insertion>, k: nat, j: nat)
    requires input.Matched() && R.PlanFits(input, insertions) && k <= |input.current.owners|
    requires R.SlotFits(input.current, insertions, k) && j <= |R.At(input.current, insertions, k)|
    ensures var placed, from := R.At(input.current, insertions, k), PriorEnd(input.current, k);
            && AllCut(input, R.SlotPieces(placed, from, j))
            && R.StandsAt(placed, from, j) <= |input.current.source|
            && IsCharBoundary(input.current.source, R.StandsAt(placed, from, j))
  {
    hide R.At, R.PlanFits, ValidDocument, IsCharBoundary;
    SlotEndsAreBoundaries(input.current, k);
    if j > 0 {
      SlotPiecesCut(input, insertions, k, j - 1);
      PlacedRangesCut(input, insertions, k, j - 1);
      assert R.OffsetFits(input.current, R.At(input.current, insertions, k), k, j - 1);
    }
  }

  lemma SlotRestCuts(input: R.Input, insertions: seq<R.Insertion>, k: nat)
    requires input.Matched() && R.PlanFits(input, insertions) && k <= |input.current.owners|
    requires R.SlotFits(input.current, insertions, k) && R.RangesInside(input, insertions)
    ensures PieceCuts(input, R.SlotRest(input.current, insertions, k))
  {
    hide R.At, R.PlanFits, R.StandsAt;
    var n := |R.At(input.current, insertions, k)|;
    SlotPiecesCut(input, insertions, k, n);
    R.SlotPiecesFit(input, insertions, k, n);
    R.SlotRanges(input.current, k);
    if k < |input.current.owners| {
      assert OwnerFits(input.current, k);
    }
  }

  /** Every piece a renderable plan spells starts and ends between characters. */
  lemma {:induction false} PlannedPiecesCut(input: R.Input, insertions: seq<R.Insertion>, k: nat)
    requires R.Renderable(input, insertions) && k <= |input.current.owners| + 1
    ensures AllCut(input, R.Pieces(input.current, insertions, k))
  {
    hide R.At, R.PlanFits, R.Input.Comparable, ValidDocument, R.SlotPieces, R.SlotRest, PieceCuts;
    if k > 0 {
      R.RenderableIsMatched(input, insertions);
      R.PlanIsIncoming(input, insertions);
      PlannedPiecesCut(input, insertions, k - 1);
      assert R.SlotFits(input.current, insertions, k - 1);
      SlotPiecesCut(input, insertions, k - 1, |R.At(input.current, insertions, k - 1)|);
      SlotRestCuts(input, insertions, k - 1);
    }
  }

  lemma {:induction false} SpelledIsText(input: R.Input, pieces: seq<R.Piece>)
    requires ValidUtf8(input.pair.current.bytes) && ValidUtf8(input.pair.incoming.bytes)
    requires R.PiecesFit(input, pieces) && AllCut(input, pieces)
    ensures ValidUtf8(R.Spell(input, pieces))
  {
    hide ValidUtf8, IsCharBoundary;
    if pieces == [] {
      NothingIsText();
    } else {
      var n := |pieces| - 1;
      var source, range := R.SourceOf(input, pieces[n]).bytes, pieces[n].range;
      SpelledIsText(input, pieces[..n]);
      assert PieceCuts(input, pieces[n]);
      SliceIsUtf8(source, range);
      JoinIsUtf8(R.Spell(input, pieces[..n]), source[range.start..range.end]);
    }
  }

  /** Between two texts the directional render is text. */
  lemma DirectionalOutputIsText(input: R.Input, insertions: seq<R.Insertion>)
    requires R.Renderable(input, insertions)
    requires ValidUtf8(input.current.source) && ValidUtf8(input.incoming.source)
    ensures ValidUtf8(R.PlannedText(input, insertions))
  {
    hide ValidUtf8, R.Pieces, R.PlanFits, R.OffsetsFit, AllCut, R.PiecesFit, R.Spell;
    R.RenderableIsMatched(input, insertions);
    var n := |input.current.owners| + 1;
    R.PlannedPiecesFit(input, insertions, n);
    PlannedPiecesCut(input, insertions, n);
    SpelledIsText(input, R.Pieces(input.current, insertions, n));
  }
}
