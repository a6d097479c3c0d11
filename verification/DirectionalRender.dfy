/** Execution of an insertion plan: every current byte, plus every incoming-only owner once. */
module DirectionalRender {
  import opened Wrappers
  import opened Sequences
  import opened Sorting
  import opened Text
  import opened Bytes
  import opened Documents
  import opened Directional

  /** Put an incoming owner's range in front of a current owner, or into the suffix for None. */
  datatype Insertion = Insertion(ownerId: string, before: Option<string>, offset: nat, range: ByteRange)

  datatype Action = RetainCurrentOnly | RetainIdenticalCurrent | PreferCurrent | AddIncomingOnly

  /** A stretch of one source, with its digest. */
  datatype Region = Region(sourceId: string, role: SourceRole, range: ByteRange, sha256: string)

  datatype Decision = Decision(
    id: string,
    ownerId: string,
    path: string,
    action: Action,
    incoming: Option<Region>,
    current: Option<Region>)

  datatype Classification = Classification(
    decisions: seq<Decision>,
    incomingOwnerOrder: seq<string>,
    currentOwnerOrder: seq<string>,
    incomingLayout: seq<Region>,
    currentLayout: seq<Region>)

  type Reparse = ByteString -> Result<Document, string>

  datatype RenderError =
    | NotComparable
    | InvalidPlan
    | OffsetOutsideSlot
    | EvidenceRejected
    | NotReparsed
    | InvalidRender
    | OwnershipChanged

  datatype Input = Input(pair: Pair, incoming: Document, current: Document) {
    predicate Matched() {
      && pair.Distinguished()
      && pair.incoming.bytes == incoming.source
      && pair.current.bytes == current.source
      && ValidDocument(incoming)
      && ValidDocument(current)
    }

    /** An identity of both sides stands at the same structural path in both. */
    predicate PathAgrees(id: string)
      requires Matched()
    {
      Lookup(incoming, id).Some? && Lookup(current, id).Some? ==>
        Lookup(incoming, id).value.path == Lookup(current, id).value.path
    }

    predicate Comparable() {
      Matched() && forall id :: id in OwnerIds(current) + OwnerIds(incoming) ==> PathAgrees(id)
    }

    function Additions(): set<string> {
      (set id | id in OwnerIds(incoming)) - (set id | id in OwnerIds(current))
    }
  }

  // ----- classification

  function ActionFor(input: Input, id: string): Action
    requires input.Matched()
  {
    match (Lookup(input.incoming, id), Lookup(input.current, id))
    case (Some(candidate), Some(existing)) =>
      if OwnerText(input.incoming, id) == OwnerText(input.current, id) then RetainIdenticalCurrent else PreferCurrent
    case (None, _) => RetainCurrentOnly
    case (Some(_), None) => AddIncomingOnly
  }

  function OwnerText(doc: Document, id: string): ByteString
    requires ValidDocument(doc) && Lookup(doc, id).Some?
  {
    var owner := Lookup(doc, id).value;
    OwnerIsSliceable(doc, id);
    doc.source[owner.start..owner.end]
  }

  lemma OwnerIsSliceable(doc: Document, id: string)
    requires ValidDocument(doc) && Lookup(doc, id).Some?
    ensures var owner := Lookup(doc, id).value;
            && owner.id == id && owner in doc.owners
            && owner.start < owner.end <= |doc.source|
            && IsCharBoundary(doc.source, owner.start) && IsCharBoundary(doc.source, owner.end)
  {
    IdIsOwned(doc, id);
    var k :| 0 <= k < |doc.owners| && doc.owners[k] == Lookup(doc, id).value;
    assert OwnerFits(doc, k);
  }

  function RegionOf(source: SourceDocument, range: ByteRange, sha: Digest): Region
    requires range.start <= range.end <= |source.bytes|
  {
    Region(source.sourceId, source.role, range, sha(source.bytes[range.start..range.end]))
  }

  /** The owner's stretch of its source, if this side has the owner. */
  function OwnedRegion(source: SourceDocument, doc: Document, id: string, sha: Digest): Option<Region>
    requires ValidDocument(doc) && source.bytes == doc.source
  {
    match Lookup(doc, id)
    case None => None
    case Some(owner) =>
      OwnerIsSliceable(doc, id);
      Some(RegionOf(source, ByteRange(owner.start, owner.end), sha))
  }

  function DecisionFor(input: Input, id: string, index: nat, sha: Digest): Decision
    requires input.Matched() && (Lookup(input.incoming, id).Some? || Lookup(input.current, id).Some?)
  {
    var path := if Lookup(input.current, id).Some? then Lookup(input.current, id).value.path
                else Lookup(input.incoming, id).value.path;
    Decision(Numbered("directional-decision-", index), id, path, ActionFor(input, id),
             OwnedRegion(input.pair.incoming, input.incoming, id, sha),
             OwnedRegion(input.pair.current, input.current, id, sha))
  }

  /** One numbered decision per id, in order. */
  predicate DecidesAll(input: Input, ids: seq<string>, decisions: seq<Decision>, sha: Digest)
    requires input.Matched()
  {
    && |decisions| == |ids|
    && forall k :: 0 <= k < |ids| ==>
         && (Lookup(input.incoming, ids[k]).Some? || Lookup(input.current, ids[k]).Some?)
         && decisions[k] == DecisionFor(input, ids[k], k, sha)
  }

  lemma DecidesOneMore(input: Input, ids: seq<string>, decisions: seq<Decision>, id: string, sha: Digest)
    requires input.Matched() && DecidesAll(input, ids, decisions, sha)
    requires Lookup(input.incoming, id).Some? || Lookup(input.current, id).Some?
    ensures DecidesAll(input, ids + [id], decisions + [DecisionFor(input, id, |decisions|, sha)], sha)
  {
    hide DecisionFor, Input.Matched, Lookup;
  }

  // ----- the bytes outside the owners

  function GapRanges(doc: Document): seq<ByteRange> {
    seq(|doc.owners| + 1, k requires 0 <= k <= |doc.owners| => GapRange(doc, k))
  }

  predicate IsStretch(range: ByteRange) {
    range.start < range.end
  }

  predicate AllInside(source: SourceDocument, ranges: seq<ByteRange>) {
    forall k :: 0 <= k < |ranges| ==> ranges[k].start <= ranges[k].end <= |source.bytes|
  }

  /** The regions of the nonempty ranges among `ranges`. */
  function RegionsOf(source: SourceDocument, ranges: seq<ByteRange>, sha: Digest): seq<Region>
    requires AllInside(source, ranges)
  {
    if ranges == [] then []
    else
      var last := ranges[|ranges| - 1];
      RegionsOf(source, ranges[..|ranges| - 1], sha) + if IsStretch(last) then [RegionOf(source, last, sha)] else []
  }

  lemma GapRangesAreInside(source: SourceDocument, doc: Document)
    requires ValidDocument(doc) && source.bytes == doc.source
    ensures AllInside(source, GapRanges(doc))
  {
    forall k | 0 <= k <= |doc.owners| ensures PriorEnd(doc, k) <= NextStart(doc, k) <= |doc.source| {
      GapIsRange(doc, k);
    }
  }

  function LayoutOf(source: SourceDocument, doc: Document, sha: Digest): seq<Region>
    requires ValidDocument(doc) && source.bytes == doc.source
  {
    GapRangesAreInside(source, doc);
    RegionsOf(source, GapRanges(doc), sha)
  }

  /** The text of regions of one source. */
  function RegionText(source: SourceDocument, regions: seq<Region>): seq<ByteString>
    requires forall k :: 0 <= k < |regions| ==> regions[k].range.start <= regions[k].range.end <= |source.bytes|
  {
    seq(|regions|, k requires 0 <= k < |regions| => source.bytes[regions[k].range.start..regions[k].range.end])
  }

  /** Every region is a nonempty stretch of the source under its own name and digest. */
  predicate AreStretches(source: SourceDocument, regions: seq<Region>, sha: Digest) {
    forall k :: 0 <= k < |regions| ==>
      && regions[k].range.start < regions[k].range.end <= |source.bytes|
      && regions[k] == RegionOf(source, regions[k].range, sha)
  }

  lemma {:induction false} RegionsSpellRanges(source: SourceDocument, doc: Document, k: nat, sha: Digest)
    requires ValidDocument(doc) && source.bytes == doc.source && k <= |doc.owners| + 1
    requires AllInside(source, GapRanges(doc)[..k])
    ensures var regions := RegionsOf(source, GapRanges(doc)[..k], sha);
            AreStretches(source, regions, sha) && Flatten(RegionText(source, regions)) == Flatten(Gaps(doc)[..k])
  {
    hide ValidDocument, Flatten;
    if k == 0 {
      FlattenNone(RegionText(source, []));
      FlattenNone(Gaps(doc)[..0]);
    } else {
      var ranges, gaps := GapRanges(doc), Gaps(doc);
      assert ranges[..k][..k - 1] == ranges[..k - 1] && gaps[..k] == gaps[..k - 1] + [gaps[k - 1]];
      RegionsSpellRanges(source, doc, k - 1, sha);
      var before, last := RegionsOf(source, ranges[..k - 1], sha), ranges[k - 1];
      FlattenSnoc(gaps[..k - 1], gaps[k - 1]);
      if IsStretch(last) {
        var regions := before + [RegionOf(source, last, sha)];
        assert RegionText(source, regions) == RegionText(source, before) + [gaps[k - 1]];
        FlattenSnoc(RegionText(source, before), gaps[k - 1]);
      } else {
        assert gaps[k - 1] == [] && before + [] == before;
      }
    }
  }

  /** The layout regions spell exactly the bytes outside the owners. */
  lemma LayoutSpellsGaps(source: SourceDocument, doc: Document, sha: Digest)
    requires ValidDocument(doc) && source.bytes == doc.source
    ensures AreStretches(source, LayoutOf(source, doc, sha), sha)
    ensures Flatten(RegionText(source, LayoutOf(source, doc, sha))) == Flatten(Gaps(doc))
  {
    var n := |doc.owners| + 1;
    GapRangesAreInside(source, doc);
    assert GapRanges(doc)[..n] == GapRanges(doc) && Gaps(doc)[..n] == Gaps(doc);
    RegionsSpellRanges(source, doc, n, sha);
  }

  /** `layout`: the nonempty stretches outside the owners. */
  method Layout(source: SourceDocument, doc: Document, sha: Digest) returns (regions: seq<Region>)
    requires ValidDocument(doc) && source.bytes == doc.source
    ensures regions == LayoutOf(source, doc, sha)
  {
    hide RegionOf, ValidDocument;
    var cursor := 0;
    regions := [];
    GapRangesAreInside(source, doc);
    ghost var ranges := GapRanges(doc);
    for k := 0 to |doc.owners|
      invariant cursor == PriorEnd(doc, k)
      invariant AllInside(source, ranges[..k]) && regions == RegionsOf(source, ranges[..k], sha)
    {
      GapIsRange(doc, k);
      assert ranges[..k + 1][..k] == ranges[..k];
      if cursor < doc.owners[k].start {
        regions := regions + [RegionOf(source, ByteRange(cursor, doc.owners[k].start), sha)];
      }
      cursor := doc.owners[k].end;
    }
    ghost var n := |doc.owners|;
    GapIsRange(doc, n);
    assert ranges[..n + 1] == ranges && ranges[..n + 1][..n] == ranges[..n];
    if cursor < |source.bytes| {
      regions := regions + [RegionOf(source, ByteRange(cursor, |source.bytes|), sha)];
    }
  }

  /** What is recorded about comparable inputs: decisions, both owner orders and both layouts. */
  predicate Classifies(input: Input, c: Classification, sha: Digest)
    requires input.Matched()
  {
    && DecidesAll(input, FirstOccurrences(OwnerIds(input.current) + OwnerIds(input.incoming)), c.decisions, sha)
    && c.incomingOwnerOrder == OwnerIds(input.incoming)
    && c.currentOwnerOrder == OwnerIds(input.current)
    && c.incomingLayout == LayoutOf(input.pair.incoming, input.incoming, sha)
    && c.currentLayout == LayoutOf(input.pair.current, input.current, sha)
  }

  /** `classify_directional_owners`: current order, then the incoming-only owners; paths must agree. */
  method ClassifyDirectionalOwners(input: Input, sha: Digest) returns (r: Option<Classification>)
    ensures r.Some? <==> input.Comparable()
    ensures r.Some? ==> Classifies(input, r.value, sha)
  {
    hide DecidesAll, LayoutOf, FirstOccurrences, Input.PathAgrees;
    var incomingDefect := Validate(input.incoming);
    var currentDefect := Validate(input.current);
    if !input.pair.Distinguished() || input.pair.incoming.bytes != input.incoming.source
       || input.pair.current.bytes != input.current.source || incomingDefect.Some? || currentDefect.Some? {
      return None;
    }
    var decisions := DecideOwners(input, sha);
    if decisions.None? {
      return None;
    }
    var incomingLayout := Layout(input.pair.incoming, input.incoming, sha);
    var currentLayout := Layout(input.pair.current, input.current, sha);
    return Some(Classification(decisions.value, OwnerIds(input.incoming), OwnerIds(input.current),
                               incomingLayout, currentLayout));
  }

  /** One decision per identity, unless paths disagree. */
  method DecideOwners(input: Input, sha: Digest) returns (r: Option<seq<Decision>>)
    requires input.Matched()
    ensures r.Some? <==> input.Comparable()
    ensures r.Some? ==>
              DecidesAll(input, FirstOccurrences(OwnerIds(input.current) + OwnerIds(input.incoming)), r.value, sha)
  {
    hide Input.Matched, DecidesAll, Input.PathAgrees, FirstOccurrences, OwnersById, Lookup, DecisionFor;
    DecidesNone(input, sha);
    var all := OwnerIds(input.current) + OwnerIds(input.incoming);
    var decisions: seq<Decision> := [];
    assert all[..0] == [] && all[..|all|] == all;
    FirstOfNone(all[..0]);
    for k := 0 to |all|
      invariant forall j :: 0 <= j < k ==> input.PathAgrees(all[j])
      invariant DecidesAll(input, FirstOccurrences(all[..k]), decisions, sha)
    {
      var id := all[k];
      assert id in all && all[..k + 1] == all[..k] + [id];
      EveryIdIsOwned(input, id);
      FirstOccurrencesGrow(all[..k], id);
      assert FirstOccurrences(all[..k]) + [] == FirstOccurrences(all[..k]);
      if !input.PathAgrees(id) {
        return None;
      }
      if id !in FirstOccurrences(all[..k]) {
        DecidesOneMore(input, FirstOccurrences(all[..k]), decisions, id, sha);
        decisions := decisions + [DecisionFor(input, id, |decisions|, sha)];
      }
    }
    return Some(decisions);
  }

  lemma EveryIdIsOwned(input: Input, id: string)
    requires input.Matched() && id in OwnerIds(input.current) + OwnerIds(input.incoming)
    ensures Lookup(input.incoming, id).Some? || Lookup(input.current, id).Some?
  {
    IdIsOwned(input.current, id);
    IdIsOwned(input.incoming, id);
  }

  lemma DecidesNone(input: Input, sha: Digest)
    requires input.Matched()
    ensures DecidesAll(input, [], [], sha)
  {}

  lemma FirstOfNone(s: seq<string>)
    requires s == []
    ensures FirstOccurrences(s) == []
  {}

  // ----- disjoint ranges

  predicate Apart(a: ByteRange, b: ByteRange) {
    a.end <= b.start || b.end <= a.start
  }

  predicate PairwiseApart(ranges: seq<ByteRange>) {
    forall i, j :: 0 <= i < j < |ranges| ==> Apart(ranges[i], ranges[j])
  }

  predicate AllNonempty(ranges: seq<ByteRange>) {
    forall k :: 0 <= k < |ranges| ==> ranges[k].start < ranges[k].end
  }

  predicate StartsNoLater(a: ByteRange, b: ByteRange) {
    a.start <= b.start
  }

  /** Sorted by start, each range ends before the next begins. */
  predicate AdjacentApart(ranges: seq<ByteRange>) {
    forall k :: 0 <= k < |ranges| - 1 ==> ranges[k].end <= ranges[k + 1].start
  }

  lemma {:induction false} AdjacentChains(ranges: seq<ByteRange>, i: nat, j: nat)
    requires AllNonempty(ranges) && AdjacentApart(ranges) && i < j < |ranges|
    ensures ranges[i].end <= ranges[j].start
    decreases j
  {
    if i < j - 1 {
      AdjacentChains(ranges, i, j - 1);
    }
  }

  /** For nonempty ranges, being pairwise apart depends only on which ranges there are, and how often. */
  lemma ApartByMultiplicity(ranges: seq<ByteRange>)
    requires AllNonempty(ranges)
    ensures PairwiseApart(ranges) <==>
            && (forall a :: a in ranges ==> multiset(ranges)[a] == 1)
            && (forall a, b :: a in ranges && b in ranges && a != b ==> Apart(a, b))
  {
    DistinctIsMultiplicity(ranges);
    if PairwiseApart(ranges) {
      forall i, j | 0 <= i < j < |ranges| ensures ranges[i] != ranges[j] {
        assert Apart(ranges[i], ranges[j]);
      }
    }
  }

  lemma ApartPermutes(s: seq<ByteRange>, t: seq<ByteRange>)
    requires multiset(s) == multiset(t) && AllNonempty(s)
    ensures AllNonempty(t)
    ensures PairwiseApart(s) <==> PairwiseApart(t)
  {
    assert forall a :: a in s <==> a in multiset(s);
    assert forall a :: a in t <==> a in multiset(t);
    forall k | 0 <= k < |t| ensures t[k].start < t[k].end {
      assert t[k] in s;
    }
    ApartByMultiplicity(s);
    ApartByMultiplicity(t);
  }

  /** Sorting and comparing neighbours decides whether any two ranges meet. */
  lemma SortedNeighboursDecide(ranges: seq<ByteRange>)
    requires AllNonempty(ranges)
    ensures AdjacentApart(Sort(StartsNoLater, ranges)) <==> PairwiseApart(ranges)
  {
    var sorted := Sort(StartsNoLater, ranges);
    SortSorts(StartsNoLater, ranges);
    ApartPermutes(ranges, sorted);
    if AdjacentApart(sorted) {
      forall i, j | 0 <= i < j < |sorted| ensures Apart(sorted[i], sorted[j]) {
        AdjacentChains(sorted, i, j);
      }
    }
    if PairwiseApart(sorted) {
      forall k | 0 <= k < |sorted| - 1 ensures sorted[k].end <= sorted[k + 1].start {
        assert Apart(sorted[k], sorted[k + 1]);
        assert StartsNoLater(sorted[k], sorted[k + 1]);
      }
    }
  }

  // ----- the insertion plan

  function InsertedRanges(insertions: seq<Insertion>): seq<ByteRange> {
    Map((i: Insertion) => i.range, insertions)
  }

  function InsertedIds(insertions: seq<Insertion>): seq<string> {
    Map((i: Insertion) => i.ownerId, insertions)
  }

  /** The range holds the whole owner, cuts at characters, and touches no other owner. */
  predicate HoldsOwner(input: Input, insertion: Insertion)
    requires input.Matched() && Lookup(input.incoming, insertion.ownerId).Some?
  {
    var owner, range, source := Lookup(input.incoming, insertion.ownerId).value, insertion.range, input.incoming.source;
    && range.start <= owner.start && owner.end <= range.end <= |source|
    && IsCharBoundary(source, range.start) && IsCharBoundary(source, range.end)
    && forall k :: 0 <= k < |input.incoming.owners| && input.incoming.owners[k].id != owner.id ==>
         !(range.start < input.incoming.owners[k].end && input.incoming.owners[k].start < range.end)
  }

  predicate InsertionFits(input: Input, insertion: Insertion)
    requires input.Matched()
  {
    && insertion.ownerId in input.Additions()
    && (insertion.before.Some? ==> insertion.before.value in OwnerIds(input.current))
    && Lookup(input.incoming, insertion.ownerId).Some?
    && HoldsOwner(input, insertion)
  }

  /** Each incoming-only owner is placed once, by a range of its own. */
  predicate PlanFits(input: Input, insertions: seq<Insertion>)
    requires input.Matched()
  {
    && (forall k :: 0 <= k < |insertions| ==> InsertionFits(input, insertions[k]))
    && Distinct(InsertedIds(insertions))
    && (set id | id in InsertedIds(insertions)) == input.Additions()
    && PairwiseApart(InsertedRanges(insertions))
  }

  lemma AdditionIsIncoming(input: Input, id: string)
    requires input.Matched() && id in input.Additions()
    ensures Lookup(input.incoming, id).Some? && Lookup(input.current, id).None?
  {
    IdIsOwned(input.incoming, id);
    IdIsOwned(input.current, id);
  }

  lemma FittingRangesAreNonempty(input: Input, insertions: seq<Insertion>)
    requires input.Matched() && forall k :: 0 <= k < |insertions| ==> InsertionFits(input, insertions[k])
    ensures AllNonempty(InsertedRanges(insertions))
  {
    forall k | 0 <= k < |insertions| ensures insertions[k].range.start < insertions[k].range.end {
      assert InsertionFits(input, insertions[k]);
      OwnerIsSliceable(input.incoming, insertions[k].ownerId);
    }
  }

  /** The checks of `render_directional_owners` before it renders. */
  method CheckPlan(input: Input, insertions: seq<Insertion>) returns (ok: bool)
    requires input.Matched()
    ensures ok <==> PlanFits(input, insertions)
  {
    hide Input.Matched, HoldsOwner, Input.Additions, OwnersById, PairwiseApart, AdjacentApart, Sort, InsertedRanges;
    var additions := input.Additions();
    var planned: set<string> := {};
    ghost var ids := InsertedIds(insertions);
    for k := 0 to |insertions|
      invariant forall j :: 0 <= j < k ==> InsertionFits(input, insertions[j])
      invariant forall i, j :: 0 <= i < j < k ==> ids[i] != ids[j]
      invariant planned == set j | 0 <= j < k :: ids[j]
    {
      var insertion := insertions[k];
      assert ids[k] == insertion.ownerId;
      if insertion.ownerId in planned {
        return false;
      }
      if insertion.ownerId !in additions
         || (insertion.before.Some? && insertion.before.value !in OwnerIds(input.current)) {
        assert !InsertionFits(input, insertions[k]);
        return false;
      }
      AdditionIsIncoming(input, insertion.ownerId);
      if !HoldsOwner(input, insertion) {
        assert !InsertionFits(input, insertions[k]);
        return false;
      }
      planned := planned + {insertion.ownerId};
    }
    assert planned == set id | id in ids;
    if planned != additions {
      return false;
    }
    var ranges := Sort(StartsNoLater, InsertedRanges(insertions));
    FittingRangesAreNonempty(input, insertions);
    SortedNeighboursDecide(InsertedRanges(insertions));
    return AdjacentApart(ranges);
  }

  // ----- slots: one before each current owner, and the suffix

  function Anchor(doc: Document, k: nat): Option<string>
    requires k <= |doc.owners|
  {
    if k < |doc.owners| then Some(doc.owners[k].id) else None
  }

  /** The insertions planned for slot `k`, in plan order. */
  function At(doc: Document, insertions: seq<Insertion>, k: nat): seq<Insertion>
    requires k <= |doc.owners|
  {
    var anchor := Anchor(doc, k);
    Filter(insertions, (i: Insertion) => i.before == anchor)
  }

  /** Where the current text stands before insertion `j` of a slot that starts at `from`. */
  function StandsAt(placed: seq<Insertion>, from: nat, j: nat): nat
    requires j <= |placed|
  {
    if j == 0 then from else placed[j - 1].offset
  }

  predicate OffsetFits(doc: Document, placed: seq<Insertion>, k: nat, j: nat)
    requires k <= |doc.owners| && j < |placed|
  {
    && StandsAt(placed, PriorEnd(doc, k), j) <= placed[j].offset <= NextStart(doc, k)
    && IsCharBoundary(doc.source, placed[j].offset)
  }

  /** The offsets of a slot stay inside its gap, in order, at character boundaries. */
  predicate SlotFits(doc: Document, insertions: seq<Insertion>, k: nat)
    requires k <= |doc.owners|
  {
    forall j :: 0 <= j < |At(doc, insertions, k)| ==> OffsetFits(doc, At(doc, insertions, k), k, j)
  }

  predicate OffsetsFit(doc: Document, insertions: seq<Insertion>) {
    forall k :: 0 <= k <= |doc.owners| ==> SlotFits(doc, insertions, k)
  }

  // ----- the planned text

  datatype Piece = FromCurrent(range: ByteRange) | FromIncoming(range: ByteRange)

  function SourceOf(input: Input, piece: Piece): SourceDocument {
    if piece.FromCurrent? then input.pair.current else input.pair.incoming
  }

  predicate PieceFits(input: Input, piece: Piece) {
    piece.range.start <= piece.range.end <= |SourceOf(input, piece).bytes|
  }

  predicate PiecesFit(input: Input, pieces: seq<Piece>) {
    forall k :: 0 <= k < |pieces| ==> PieceFits(input, pieces[k])
  }

  function Spell(input: Input, pieces: seq<Piece>): ByteString
    requires PiecesFit(input, pieces)
  {
    if pieces == [] then []
    else
      var last := pieces[|pieces| - 1];
      Spell(input, pieces[..|pieces| - 1]) + SourceOf(input, last).bytes[last.range.start..last.range.end]
  }

  /** Current text up to each insertion, then the inserted range. */
  function SlotPieces(placed: seq<Insertion>, from: nat, j: nat): seq<Piece>
    requires j <= |placed|
  {
    if j == 0 then []
    else SlotPieces(placed, from, j - 1)
         + [FromCurrent(ByteRange(StandsAt(placed, from, j - 1), placed[j - 1].offset)),
            FromIncoming(placed[j - 1].range)]
  }

  /** The rest of the current text of slot `k`, with its owner. */
  function SlotRest(doc: Document, insertions: seq<Insertion>, k: nat): Piece
    requires k <= |doc.owners|
  {
    var placed := At(doc, insertions, k);
    FromCurrent(ByteRange(StandsAt(placed, PriorEnd(doc, k), |placed|),
                          if k < |doc.owners| then doc.owners[k].end else |doc.source|))
  }

  /** The pieces of the first `k` slots. */
  function Pieces(doc: Document, insertions: seq<Insertion>, k: nat): seq<Piece>
    requires k <= |doc.owners| + 1
  {
    if k == 0 then []
    else
      var placed := At(doc, insertions, k - 1);
      Pieces(doc, insertions, k - 1)
      + SlotPieces(placed, PriorEnd(doc, k - 1), |placed|) + [SlotRest(doc, insertions, k - 1)]
  }

  /** An owner of the output, and the document its bytes come from. */
  datatype Placed = Placed(owner: Owner, fromIncoming: bool)

  predicate AllIncoming(input: Input, insertions: seq<Insertion>)
    requires input.Matched()
  {
    forall k :: 0 <= k < |insertions| ==> Lookup(input.incoming, insertions[k].ownerId).Some?
  }

  function PlacedInsertions(input: Input, placed: seq<Insertion>): seq<Placed>
    requires input.Matched() && AllIncoming(input, placed)
  {
    seq(|placed|, j requires 0 <= j < |placed| => Placed(Lookup(input.incoming, placed[j].ownerId).value, true))
  }

  lemma AtIsPlanned(input: Input, insertions: seq<Insertion>, k: nat)
    requires input.Matched() && AllIncoming(input, insertions) && k <= |input.current.owners|
    ensures AllIncoming(input, At(input.current, insertions, k))
    ensures forall i :: i in At(input.current, insertions, k) ==> i in insertions
  {
    var anchor := Anchor(input.current, k);
    FilterMembers(insertions, (i: Insertion) => i.before == anchor);
    var placed := At(input.current, insertions, k);
    forall j | 0 <= j < |placed| ensures Lookup(input.incoming, placed[j].ownerId).Some? {
      assert placed[j] in insertions;
    }
  }

  /** The owners of the first `k` slots, in output order. */
  function SelectedOwners(input: Input, insertions: seq<Insertion>, k: nat): seq<Placed>
    requires input.Matched() && AllIncoming(input, insertions) && k <= |input.current.owners| + 1
  {
    if k == 0 then []
    else
      AtIsPlanned(input, insertions, k - 1);
      SelectedOwners(input, insertions, k - 1)
      + PlacedInsertions(input, At(input.current, insertions, k - 1))
      + if k - 1 < |input.current.owners| then [Placed(input.current.owners[k - 1], false)] else []
  }

  // ----- the rendering loops

  /** The source ranges of the incoming stretches, in output order. */
  function IncomingRanges(segments: seq<Segment>): seq<ByteRange> {
    if segments == [] then []
    else
      var last := segments[|segments| - 1];
      IncomingRanges(segments[..|segments| - 1]) + if last.role == Incoming then [last.sourceRange] else []
  }

  function IncomingPieces(pieces: seq<Piece>): seq<ByteRange> {
    if pieces == [] then []
    else
      var last := pieces[|pieces| - 1];
      IncomingPieces(pieces[..|pieces| - 1]) + if last.FromIncoming? then [last.range] else []
  }

  function SpotsOf(placed: seq<Insertion>): seq<Spot> {
    Map((i: Insertion) => Spot(i.range, i.offset), placed)
  }

  /** Where the insertions of the first `k` slots go: to their offsets, slot by slot, in plan order. */
  function PlannedSpots(doc: Document, insertions: seq<Insertion>, k: nat): seq<Spot>
    requires k <= |doc.owners| + 1
  {
    if k == 0 then [] else PlannedSpots(doc, insertions, k - 1) + SpotsOf(At(doc, insertions, k - 1))
  }

  /**
   * The buffer holds exactly the text of `pieces`, with its incoming stretches at `spots`, and retains
   * the current source up to `cursor`.
   */
  ghost predicate Spells(buffer: RenderBuffer, input: Input, pieces: seq<Piece>, cursor: nat, spots: seq<Spot>,
                         sha: Digest)
    reads buffer
  {
    && input.pair.Distinguished()
    && PiecesFit(input, pieces)
    && buffer.output == Spell(input, pieces)
    && IncomingRanges(buffer.segments) == IncomingPieces(pieces)
    && Spots(buffer.segments, |buffer.segments|) == spots
    && Accounts(buffer.output, buffer.segments, input.pair, cursor, sha)
  }

  lemma SpellGrows(input: Input, pieces: seq<Piece>, piece: Piece)
    requires PiecesFit(input, pieces) && PieceFits(input, piece)
    ensures PiecesFit(input, pieces + [piece])
    ensures Spell(input, pieces + [piece]) ==
            Spell(input, pieces) + SourceOf(input, piece).bytes[piece.range.start..piece.range.end]
    ensures IncomingPieces(pieces + [piece]) ==
            IncomingPieces(pieces) + if piece.FromIncoming? then [piece.range] else []
  {
    assert (pieces + [piece])[..|pieces|] == pieces;
  }

  lemma IncomingGrows(segments: seq<Segment>, segment: Segment)
    ensures IncomingRanges(segments + [segment]) ==
            IncomingRanges(segments) + if segment.role == Incoming then [segment.sourceRange] else []
  {
    assert (segments + [segment])[..|segments|] == segments;
  }

  /** Append one planned piece; a current piece has to continue where the current text stands. */
  method CopyPiece(buffer: RenderBuffer, input: Input, piece: Piece, sha: Digest, ghost pieces: seq<Piece>,
                   ghost cursor: nat, ghost spots: seq<Spot>)
    requires Spells(buffer, input, pieces, cursor, spots, sha) && PieceFits(input, piece)
    requires if piece.FromCurrent? then piece.range.start == cursor else piece.range.start < piece.range.end
    modifies buffer
    ensures Spells(buffer, input, pieces + [piece], if piece.FromCurrent? then piece.range.end else cursor,
                   spots + if piece.FromIncoming? then [Spot(piece.range, cursor)] else [], sha)
  {
    SpellGrows(input, pieces, piece);
    var source := SourceOf(input, piece);
    ghost var output, segments := buffer.output, buffer.segments;
    if piece.range.start < piece.range.end {
      AppendAccounts(output, segments, input.pair, cursor, sha, source, piece.range);
    }
    buffer.Append(source, piece.range, sha);
    if piece.range.start < piece.range.end {
      IncomingGrows(segments, buffer.segments[|segments|]);
      SpotsOfPrefix(segments, buffer.segments[|segments|], |segments|);
      CursorsOfPrefix(segments, buffer.segments[|segments|], |segments|);
    } else {
      assert buffer.segments == segments && buffer.output == output;
      assert IncomingPieces(pieces) + [] == IncomingPieces(pieces) && spots + [] == spots;
    }
  }

  predicate RangesInside(input: Input, insertions: seq<Insertion>) {
    forall k :: 0 <= k < |insertions| ==>
      insertions[k].range.start < insertions[k].range.end <= |input.pair.incoming.bytes|
  }

  /** Where the current text stands after slot `k`. */
  function SlotEnd(doc: Document, k: nat): nat
    requires k <= |doc.owners|
  {
    if k < |doc.owners| then doc.owners[k].end else |doc.source|
  }

  lemma SlotRanges(doc: Document, k: nat)
    requires ValidDocument(doc) && k <= |doc.owners|
    ensures PriorEnd(doc, k) <= NextStart(doc, k) <= SlotEnd(doc, k) <= |doc.source|
  {
    GapIsRange(doc, k);
    if k < |doc.owners| {
      assert OwnerFits(doc, k);
    }
  }

  lemma NoSpots()
    ensures SpotsOf([]) == []
  {}

  lemma OneMoreSpot(placed: seq<Insertion>, j: nat)
    requires j < |placed|
    ensures SpotsOf(placed[..j + 1]) == SpotsOf(placed[..j]) + [Spot(placed[j].range, placed[j].offset)]
  {}

  /** One slot of the rendering loop: its insertions between current text, then the rest of the slot. */
  method RenderSlot(input: Input, placed: seq<Insertion>, buffer: RenderBuffer, k: nat, sha: Digest,
                    ghost pieces: seq<Piece>, ghost spots: seq<Spot>)
    returns (ok: bool)
    requires ValidDocument(input.current) && input.pair.current.bytes == input.current.source
    requires k <= |input.current.owners| && RangesInside(input, placed)
    requires Spells(buffer, input, pieces, PriorEnd(input.current, k), spots, sha)
    modifies buffer
    ensures ok <==> forall j :: 0 <= j < |placed| ==> OffsetFits(input.current, placed, k, j)
    ensures ok ==>
              var from, end := PriorEnd(input.current, k), SlotEnd(input.current, k);
              Spells(buffer, input,
                     pieces + SlotPieces(placed, from, |placed|)
                     + [FromCurrent(ByteRange(StandsAt(placed, from, |placed|), end))], end,
                     spots + SpotsOf(placed), sha)
  {
    hide Spells, IsCharBoundary, ValidDocument, SpotsOf;
    NoSpots();
    var doc := input.current;
    SlotRanges(doc, k);
    var from := PriorEnd(doc, k);
    var cursor := from;
    assert pieces + SlotPieces(placed, from, 0) == pieces && placed[..0] == [] && spots + [] == spots;
    for j := 0 to |placed|
      invariant cursor == StandsAt(placed, from, j) && from <= cursor <= NextStart(doc, k)
      invariant forall i :: 0 <= i < j ==> OffsetFits(doc, placed, k, i)
      invariant Spells(buffer, input, pieces + SlotPieces(placed, from, j), cursor, spots + SpotsOf(placed[..j]), sha)
    {
      var offset := placed[j].offset;
      if offset < cursor || offset > NextStart(doc, k) || !IsCharBoundary(doc.source, offset) {
        assert !OffsetFits(doc, placed, k, j);
        return false;
      }
      ghost var before := pieces + SlotPieces(placed, from, j);
      var kept, added := FromCurrent(ByteRange(cursor, offset)), FromIncoming(placed[j].range);
      ghost var placedSpots := spots + SpotsOf(placed[..j]);
      OneMoreSpot(placed, j);
      assert placedSpots + [] == placedSpots;
      CopyPiece(buffer, input, kept, sha, before, cursor, placedSpots);
      CopyPiece(buffer, input, added, sha, before + [kept], offset, placedSpots);
      assert placedSpots + [Spot(placed[j].range, offset)] == spots + SpotsOf(placed[..j + 1]);
      assert before + [kept] + [added] == pieces + SlotPieces(placed, from, j + 1);
      cursor := offset;
    }
    ghost var before := pieces + SlotPieces(placed, from, |placed|);
    assert placed[..|placed|] == placed && spots + SpotsOf(placed) + [] == spots + SpotsOf(placed);
    CopyPiece(buffer, input, FromCurrent(ByteRange(cursor, SlotEnd(doc, k))), sha, before, cursor,
              spots + SpotsOf(placed));
    return true;
  }

  /** A plan that can be rendered: comparable inputs, fitting insertions, offsets inside their slots. */
  predicate Renderable(input: Input, insertions: seq<Insertion>) {
    input.Comparable() && PlanFits(input, insertions) && OffsetsFit(input.current, insertions)
  }

  lemma PlanIsIncoming(input: Input, insertions: seq<Insertion>)
    requires input.Matched() && PlanFits(input, insertions)
    ensures AllIncoming(input, insertions) && RangesInside(input, insertions)
  {
    FittingRangesAreNonempty(input, insertions);
    forall k | 0 <= k < |insertions|
      ensures Lookup(input.incoming, insertions[k].ownerId).Some?
      ensures insertions[k].range.start < insertions[k].range.end <= |input.pair.incoming.bytes|
    {
      assert InsertionFits(input, insertions[k]);
      assert InsertedRanges(insertions)[k] == insertions[k].range;
    }
  }

  lemma PartInside(input: Input, insertions: seq<Insertion>, k: nat)
    requires RangesInside(input, insertions) && k <= |input.current.owners|
    ensures RangesInside(input, At(input.current, insertions, k))
  {
    var anchor, placed := Anchor(input.current, k), At(input.current, insertions, k);
    FilterMembers(insertions, (i: Insertion) => i.before == anchor);
    forall j | 0 <= j < |placed|
      ensures placed[j].range.start < placed[j].range.end <= |input.pair.incoming.bytes|
    {
      assert placed[j] in insertions;
    }
  }

  lemma PiecesGrow(doc: Document, insertions: seq<Insertion>, k: nat)
    requires k <= |doc.owners|
    ensures var placed := At(doc, insertions, k);
            Pieces(doc, insertions, k + 1) ==
            Pieces(doc, insertions, k) + SlotPieces(placed, PriorEnd(doc, k), |placed|)
            + [FromCurrent(ByteRange(StandsAt(placed, PriorEnd(doc, k), |placed|), SlotEnd(doc, k)))]
  {}

  lemma EmptySpells(buffer: RenderBuffer, input: Input, sha: Digest)
    requires input.pair.Distinguished() && buffer.output == [] && buffer.segments == []
    ensures Spells(buffer, input, [], 0, [], sha)
  {}

  /** The rendering loop over all slots. */
  method RenderSlots(input: Input, insertions: seq<Insertion>, buffer: RenderBuffer, sha: Digest) returns (ok: bool)
    requires input.Matched() && AllIncoming(input, insertions) && RangesInside(input, insertions)
    requires buffer.output == [] && buffer.segments == []
    modifies buffer
    ensures ok <==> OffsetsFit(input.current, insertions)
    ensures ok ==> Spells(buffer, input, Pieces(input.current, insertions, |input.current.owners| + 1),
                          |input.current.source|,
                          PlannedSpots(input.current, insertions, |input.current.owners| + 1), sha)
  {
    var doc := input.current;
    hide ValidDocument, OffsetFits, At, AllIncoming, Accounts, SlotPieces, StandsAt;
    assert Pieces(doc, insertions, 0) == [] && IncomingRanges([]) == [];
    assert Spells(buffer, input, [], 0, [], sha) by {
      EmptySpells(buffer, input, sha);
    }
    hide Spells, Pieces, SpotsOf;
    for k := 0 to |doc.owners| + 1
      invariant forall j :: 0 <= j < k ==> SlotFits(doc, insertions, j)
      invariant Spells(buffer, input, Pieces(doc, insertions, k), if k == 0 then 0 else SlotEnd(doc, k - 1),
                       PlannedSpots(doc, insertions, k), sha)
    {
      PiecesGrow(doc, insertions, k);
      var placed := At(doc, insertions, k);
      PartInside(input, insertions, k);
      var fits := RenderSlot(input, placed, buffer, k, sha, Pieces(doc, insertions, k),
                             PlannedSpots(doc, insertions, k));
      if !fits {
        assert !SlotFits(doc, insertions, k);
        return false;
      }
    }
    return true;
  }

  // ----- the whole operation

  function PlannedText(input: Input, insertions: seq<Insertion>): ByteString
    requires Renderable(input, insertions)
  {
    PlannedPiecesFit(input, insertions, |input.current.owners| + 1);
    Spell(input, Pieces(input.current, insertions, |input.current.owners| + 1))
  }

  lemma {:induction false} SlotPiecesFit(input: Input, insertions: seq<Insertion>, k: nat, j: nat)
    requires ValidDocument(input.current) && input.pair.current.bytes == input.current.source
    requires RangesInside(input, insertions) && k <= |input.current.owners|
    requires SlotFits(input.current, insertions, k) && j <= |At(input.current, insertions, k)|
    ensures PiecesFit(input, SlotPieces(At(input.current, insertions, k), PriorEnd(input.current, k), j))
    ensures PriorEnd(input.current, k) <= StandsAt(At(input.current, insertions, k), PriorEnd(input.current, k), j)
            <= NextStart(input.current, k)
  {
    hide At, ValidDocument, IsCharBoundary;
    SlotRanges(input.current, k);
    if j > 0 {
      PartInside(input, insertions, k);
      SlotPiecesFit(input, insertions, k, j - 1);
      assert OffsetFits(input.current, At(input.current, insertions, k), k, j - 1);
    }
  }

  lemma RenderableIsMatched(input: Input, insertions: seq<Insertion>)
    requires Renderable(input, insertions)
    ensures input.Matched() && PlanFits(input, insertions)
  {}

  lemma {:induction false} PlannedPiecesFit(input: Input, insertions: seq<Insertion>, k: nat)
    requires Renderable(input, insertions) && k <= |input.current.owners| + 1
    ensures PiecesFit(input, Pieces(input.current, insertions, k))
  {
    hide At, PlanFits, Input.Comparable, ValidDocument, SlotPieces, IsCharBoundary;
    if k > 0 {
      RenderableIsMatched(input, insertions);
      PlanIsIncoming(input, insertions);
      PlannedPiecesFit(input, insertions, k - 1);
      SlotRanges(input.current, k - 1);
      assert SlotFits(input.current, insertions, k - 1);
      SlotPiecesFit(input, insertions, k - 1, |At(input.current, insertions, k - 1)|);
    }
  }

  function Selected(input: Input, insertions: seq<Insertion>): seq<Placed>
    requires input.Matched() && PlanFits(input, insertions)
  {
    PlanIsIncoming(input, insertions);
    SelectedOwners(input, insertions, |input.current.owners| + 1)
  }

  function OrderOf(selected: seq<Placed>): seq<string> {
    Map((p: Placed) => p.owner.id, selected)
  }

  /** The reparsed owner is the selected one, byte for byte. */
  predicate Matches(rendered: Document, k: nat, input: Input, expected: Placed)
    requires ValidDocument(rendered) && k < |rendered.owners|
  {
    var actual := rendered.owners[k];
    var source := if expected.fromIncoming then input.incoming.source else input.current.source;
    && actual.id == expected.owner.id
    && actual.path == expected.owner.path
    && actual.fingerprint == expected.owner.fingerprint
    && Get(source, ByteRange(expected.owner.start, expected.owner.end)) == Some(OwnerBytes(rendered, k))
  }

  predicate Confirms(input: Input, selected: seq<Placed>, output: ByteString, answer: Result<Document, string>) {
    && answer.Ok?
    && ValidDocument(answer.value)
    && answer.value.source == output
    && |answer.value.owners| == |selected|
    && forall k :: 0 <= k < |selected| ==> Matches(answer.value, k, input, selected[k])
  }

  datatype Render = Render(
    output: ByteString,
    classification: Classification,
    segments: seq<Segment>,
    ownerOrder: seq<string>)

  /**
   * `render_directional_owners` succeeds exactly on renderable plans that the reparse confirms. The
   * rendered segments always pass the independent check, so that check rejects nothing here.
   */
  method RenderDirectionalOwners(input: Input, insertions: seq<Insertion>, reparse: Reparse, sha: Digest)
    returns (r: Result<Render, RenderError>)
    ensures r.Ok? <==>
            && Renderable(input, insertions)
            && var text := PlannedText(input, insertions);
               Confirms(input, Selected(input, insertions), text, reparse(text))
    ensures r.Ok? ==> r.value.output == PlannedText(input, insertions)
    ensures r.Ok? ==> SegmentsHold(r.value.output, input.pair, r.value.segments, sha)
    ensures r.Ok? ==> IncomingRanges(r.value.segments) ==
                      IncomingPieces(Pieces(input.current, insertions, |input.current.owners| + 1))
    ensures r.Ok? ==> Spots(r.value.segments, |r.value.segments|) ==
                      PlannedSpots(input.current, insertions, |input.current.owners| + 1)
    ensures r.Ok? ==> r.value.ownerOrder == OrderOf(Selected(input, insertions))
    ensures r.Ok? ==> Classifies(input, r.value.classification, sha)
    ensures r != Err(EvidenceRejected)
  {
    var classification := ClassifyDirectionalOwners(input, sha);
    if classification.None? {
      return Err(NotComparable);
    }
    hide Input.Matched, Input.Comparable, PlanFits, OffsetsFit, Confirms, Pieces, Spell, Classifies, SelectedOwners,
      PlannedSpots, Spots;
    ComparableIsMatched(input);
    var fits := CheckPlan(input, insertions);
    if !fits {
      return Err(InvalidPlan);
    }
    PlanIsIncoming(input, insertions);
    var buffer := new RenderBuffer();
    var rendered := RenderSlots(input, insertions, buffer, sha);
    if !rendered {
      return Err(OffsetOutsideSlot);
    }
    var output, segments := buffer.output, buffer.segments;
    assert output == PlannedText(input, insertions);
    CompleteAccountHolds(input, output, segments, sha);
    var accepted := VerifyDirectionalSegments(output, input.pair, segments, sha);
    if !accepted {
      return Err(EvidenceRejected);
    }
    var selected, answer := Selected(input, insertions), reparse(output);
    if answer.Err? {
      ConfirmedIsValid(input, selected, output, answer);
      return Err(NotReparsed);
    }
    var defect := Validate(answer.value);
    if defect.Some? {
      ConfirmedIsValid(input, selected, output, answer);
      return Err(InvalidRender);
    }
    if !Confirms(input, selected, output, answer) {
      return Err(OwnershipChanged);
    }
    return Ok(Render(output, classification.value, segments, OrderOf(selected)));
  }

  lemma ComparableIsMatched(input: Input)
    requires input.Comparable()
    ensures input.Matched()
  {}

  lemma ConfirmedIsValid(input: Input, selected: seq<Placed>, output: ByteString, answer: Result<Document, string>)
    ensures Confirms(input, selected, output, answer) ==> answer.Ok? && ValidDocument(answer.value)
  {}

  lemma CompleteAccountHolds(input: Input, output: ByteString, segments: seq<Segment>, sha: Digest)
    requires input.Matched() && Accounts(output, segments, input.pair, |input.current.source|, sha)
    ensures SegmentsHold(output, input.pair, segments, sha)
  {}
}
