/** Where the insertions of a directional render end up. */
module DirectionalPlacement {
  import opened Wrappers
  import opened Sequences
  import opened Bytes
  import opened Documents
  import opened Directional
  import opened DirectionalRender
  import opened DirectionalProperties

  // ----- from spots to segments

  /** Segment `k` copies the range of the insertion, behind exactly the current text up to its offset. */
  predicate Lands(segments: seq<Segment>, k: nat, i: Insertion)
    requires k < |segments|
  {
    segments[k].role == Incoming && segments[k].sourceRange == i.range && CurrentCursor(segments, k) == i.offset
  }

  predicate HasPlace(segments: seq<Segment>, i: Insertion) {
    exists k :: 0 <= k < |segments| && Lands(segments, k, i)
  }

  /** The segment of spot `m`: as many spots stand before it. */
  lemma {:induction false} SpotIsSegment(segments: seq<Segment>, n: nat, m: nat) returns (k: nat)
    requires n <= |segments| && m < |Spots(segments, n)|
    ensures k < n && segments[k].role == Incoming && |Spots(segments, k)| == m
    ensures Spots(segments, n)[m] == Spot(segments[k].sourceRange, CurrentCursor(segments, k))
  {
    if m < |Spots(segments, n - 1)| {
      k := SpotIsSegment(segments, n - 1, m);
    } else {
      k := n - 1;
    }
  }

  lemma {:induction false} SegmentIsSpot(segments: seq<Segment>, n: nat, k: nat)
    requires k < n <= |segments| && segments[k].role == Incoming
    ensures Spot(segments[k].sourceRange, CurrentCursor(segments, k)) in Spots(segments, n)
    decreases n
  {
    if k < n - 1 {
      SegmentIsSpot(segments, n - 1, k);
    }
  }

  lemma {:induction false} SpotsGrow(segments: seq<Segment>, j: nat, k: nat)
    requires j <= k <= |segments|
    ensures |Spots(segments, j)| <= |Spots(segments, k)|
    decreases k
  {
    if j < k {
      SpotsGrow(segments, j, k - 1);
    }
  }

  // ----- from the plan to spots

  lemma SpotsOfAppend(a: seq<Insertion>, b: seq<Insertion>)
    ensures SpotsOf(a + b) == SpotsOf(a) + SpotsOf(b)
  {}

  lemma {:induction false} SpotsAreEmitted(doc: Document, insertions: seq<Insertion>, k: nat)
    requires k <= |doc.owners| + 1
    ensures PlannedSpots(doc, insertions, k) == SpotsOf(Emitted(doc, insertions, k))
  {
    hide SpotsOf, At;
    if k > 0 {
      SpotsAreEmitted(doc, insertions, k - 1);
      SpotsOfAppend(Emitted(doc, insertions, k - 1), At(doc, insertions, k - 1));
    } else {
      NoSpots();
    }
  }

  /** The part of the output order that slot `k` makes up. */
  lemma {:induction false} SlotIsPart(doc: Document, insertions: seq<Insertion>, k: nat, n: nat)
    requires k < n <= |doc.owners| + 1
    ensures var from := |Emitted(doc, insertions, k)|;
            && from + |At(doc, insertions, k)| <= |Emitted(doc, insertions, n)|
            && Emitted(doc, insertions, n)[from..from + |At(doc, insertions, k)|] == At(doc, insertions, k)
    decreases n
  {
    hide At;
    if k < n - 1 {
      SlotIsPart(doc, insertions, k, n - 1);
    }
  }

  lemma SlotOfInsertion(input: Input, insertions: seq<Insertion>, p: nat) returns (k: nat)
    requires input.Matched() && PlanFits(input, insertions) && p < |insertions|
    ensures k <= |input.current.owners| && Anchor(input.current, k) == insertions[p].before
  {
    PlannedIsAnchored(input, insertions, p);
    k :| 0 <= k < |input.current.owners| + 1 && Anchor(input.current, k) == insertions[p].before;
  }

  /** Insertions of one slot are emitted in plan order. */
  lemma PlanOrderIsKept(input: Input, insertions: seq<Insertion>, p: nat, q: nat) returns (a: nat, b: nat)
    requires input.Matched() && PlanFits(input, insertions)
    requires p < q < |insertions| && insertions[p].before == insertions[q].before
    ensures var emitted := Emitted(input.current, insertions, |input.current.owners| + 1);
            a < b < |emitted| && emitted[a] == insertions[p] && emitted[b] == insertions[q]
  {
    hide Input.Matched, PlanFits, Filter;
    var doc := input.current;
    var k := SlotOfInsertion(input, insertions, p);
    var anchor := Anchor(doc, k);
    a, b := FilterKeepsOrder(insertions, (i: Insertion) => i.before == anchor, p, q);
    var slot, from := At(doc, insertions, k), |Emitted(doc, insertions, k)|;
    SlotIsPart(doc, insertions, k, |doc.owners| + 1);
    var emitted := Emitted(doc, insertions, |doc.owners| + 1);
    assert slot[a] == emitted[from..from + |slot|][a] && slot[b] == emitted[from..from + |slot|][b];
    a, b := a + from, b + from;
  }

  // ----- the place of every insertion

  /** The render recorded its incoming stretches at the planned spots. */
  predicate PlacedAsPlanned(input: Input, insertions: seq<Insertion>, segments: seq<Segment>) {
    Spots(segments, |segments|) == PlannedSpots(input.current, insertions, |input.current.owners| + 1)
  }

  lemma EmittedAtSpots(input: Input, insertions: seq<Insertion>, segments: seq<Segment>)
    returns (emitted: seq<Insertion>)
    requires Renderable(input, insertions) && PlacedAsPlanned(input, insertions, segments)
    ensures input.Matched() && PlanFits(input, insertions)
    ensures emitted == Emitted(input.current, insertions, |input.current.owners| + 1)
    ensures Spots(segments, |segments|) == SpotsOf(emitted) && multiset(emitted) == multiset(insertions)
  {
    hide Emitted, PlanFits, OffsetsFit, Input.Comparable, Input.Matched, PlannedSpots, Spots;
    RenderableIsMatched(input, insertions);
    emitted := Emitted(input.current, insertions, |input.current.owners| + 1);
    SpotsAreEmitted(input.current, insertions, |input.current.owners| + 1);
    EmittedOnce(input, insertions);
  }

  lemma SegmentIsPlanned(segments: seq<Segment>, emitted: seq<Insertion>, insertions: seq<Insertion>, k: nat)
    requires Spots(segments, |segments|) == SpotsOf(emitted) && multiset(emitted) == multiset(insertions)
    requires k < |segments| && segments[k].role == Incoming
    ensures exists p :: 0 <= p < |insertions| && Lands(segments, k, insertions[p])
  {
    hide Spots, CurrentCursor;
    SegmentIsSpot(segments, |segments|, k);
    var spot := Spot(segments[k].sourceRange, CurrentCursor(segments, k));
    var m :| 0 <= m < |SpotsOf(emitted)| && SpotsOf(emitted)[m] == spot;
    assert emitted[m] in multiset(insertions);
    var p :| 0 <= p < |insertions| && insertions[p] == emitted[m];
    assert Lands(segments, k, insertions[p]);
  }

  lemma InsertionIsSegment(segments: seq<Segment>, emitted: seq<Insertion>, insertions: seq<Insertion>, p: nat)
    requires Spots(segments, |segments|) == SpotsOf(emitted) && multiset(emitted) == multiset(insertions)
    requires p < |insertions|
    ensures HasPlace(segments, insertions[p])
  {
    hide Spots, SpotsOf, Lands;
    assert insertions[p] in multiset(emitted);
    var m :| 0 <= m < |emitted| && emitted[m] == insertions[p];
    var k := EmittedLands(segments, emitted, m);
  }

  /**
   * Every incoming stretch of a render is a planned insertion at its planned offset, and every
   * insertion has such a stretch.
   */
  lemma InsertionsLand(input: Input, insertions: seq<Insertion>, segments: seq<Segment>)
    requires Renderable(input, insertions) && PlacedAsPlanned(input, insertions, segments)
    ensures forall k :: 0 <= k < |segments| && segments[k].role == Incoming ==>
              exists p :: 0 <= p < |insertions| && Lands(segments, k, insertions[p])
    ensures forall p :: 0 <= p < |insertions| ==> HasPlace(segments, insertions[p])
  {
    hide Emitted, Renderable, PlacedAsPlanned, Spots, SpotsOf, Input.Matched, PlanFits;
    var emitted := EmittedAtSpots(input, insertions, segments);
    forall k | 0 <= k < |segments| && segments[k].role == Incoming
      ensures exists p :: 0 <= p < |insertions| && Lands(segments, k, insertions[p])
    {
      SegmentIsPlanned(segments, emitted, insertions, k);
    }
    forall p | 0 <= p < |insertions| ensures HasPlace(segments, insertions[p]) {
      InsertionIsSegment(segments, emitted, insertions, p);
    }
  }

  /** The insertions of one slot stand in plan order. */
  lemma InsertionsKeepOrder(input: Input, insertions: seq<Insertion>, segments: seq<Segment>, p: nat, q: nat)
    returns (j: nat, k: nat)
    requires Renderable(input, insertions) && PlacedAsPlanned(input, insertions, segments)
    requires p < q < |insertions| && insertions[p].before == insertions[q].before
    ensures j < k < |segments| && Lands(segments, j, insertions[p]) && Lands(segments, k, insertions[q])
  {
    hide Emitted, Renderable, PlacedAsPlanned, Spots, SpotsOf, Input.Matched, PlanFits;
    var emitted := EmittedAtSpots(input, insertions, segments);
    var a, b := PlanOrderIsKept(input, insertions, p, q);
    j := EmittedLands(segments, emitted, a);
    k := EmittedLands(segments, emitted, b);
    if k <= j {
      SpotsGrow(segments, k, j);
    }
  }

  lemma EmittedLands(segments: seq<Segment>, emitted: seq<Insertion>, m: nat) returns (k: nat)
    requires m < |emitted| && Spots(segments, |segments|) == SpotsOf(emitted)
    ensures k < |segments| && Lands(segments, k, emitted[m]) && |Spots(segments, k)| == m
  {
    hide Spots, CurrentCursor;
    k := SpotIsSegment(segments, |segments|, m);
    assert SpotsOf(emitted)[m] == Spot(emitted[m].range, emitted[m].offset);
  }

  /** Exactly the current text up to the offset stands before an insertion. */
  lemma CurrentTextBefore(input: Input, output: ByteString, segments: seq<Segment>, sha: Digest, k: nat, i: Insertion)
    requires input.Matched() && SegmentsHold(output, input.pair, segments, sha)
    requires k < |segments| && Lands(segments, k, i)
    ensures i.offset <= |input.current.source|
    ensures RetainedCurrent(output, segments[..k]) == input.current.source[..i.offset]
    ensures Get(output, segments[k].outputRange) == Get(input.incoming.source, i.range)
  {
    RetainedUpTo(output, input.pair, segments, k, sha);
    assert SegmentHolds(output, input.pair, segments, k, sha);
  }

  // ----- the place of every owner

  function SlotIds(doc: Document, insertions: seq<Insertion>, k: nat): seq<string>
    requires k <= |doc.owners|
  {
    InsertedIds(At(doc, insertions, k)) + Own(doc, k)
  }

  lemma OrderGrows(doc: Document, insertions: seq<Insertion>, k: nat)
    requires k <= |doc.owners|
    ensures Order(doc, insertions, k + 1) == Order(doc, insertions, k) + SlotIds(doc, insertions, k)
  {}

  /** The part of the owner order that slot `k` makes up. */
  lemma {:induction false} SlotOfOrder(doc: Document, insertions: seq<Insertion>, k: nat, n: nat)
    requires k < n <= |doc.owners| + 1
    ensures var from, ids := |Order(doc, insertions, k)|, SlotIds(doc, insertions, k);
            && from + |ids| == |Order(doc, insertions, k + 1)| <= |Order(doc, insertions, n)|
            && Order(doc, insertions, n)[from..from + |ids|] == ids
    decreases n
  {
    hide SlotIds, Order;
    OrderGrows(doc, insertions, n - 1);
    if k < n - 1 {
      SlotOfOrder(doc, insertions, k, n - 1);
    }
  }

  lemma SlotsAscend(doc: Document, insertions: seq<Insertion>, j: nat, k: nat)
    requires j < k <= |doc.owners|
    ensures |Order(doc, insertions, j + 1)| <= |Order(doc, insertions, k)|
  {
    hide Order, SlotIds;
    SlotOfOrder(doc, insertions, j, k);
  }

  /** Position of an insertion's owner in the owner order. */
  lemma InsertedPosition(input: Input, insertions: seq<Insertion>, p: nat, j: nat) returns (a: nat)
    requires input.Matched() && PlanFits(input, insertions)
    requires p < |insertions| && j <= |input.current.owners| && Anchor(input.current, j) == insertions[p].before
    ensures var doc := input.current;
            var order := Order(doc, insertions, |doc.owners| + 1);
            && a < |order| && order[a] == insertions[p].ownerId
            && |Order(doc, insertions, j)| <= a < |Order(doc, insertions, j)| + |At(doc, insertions, j)|
  {
    hide Input.Matched, PlanFits, Order, Filter;
    var doc := input.current;
    var anchor := Anchor(doc, j);
    FilterMembers(insertions, (i: Insertion) => i.before == anchor);
    var slot, from := At(doc, insertions, j), |Order(doc, insertions, j)|;
    assert insertions[p] in slot;
    var m :| 0 <= m < |slot| && slot[m] == insertions[p];
    SlotOfOrder(doc, insertions, j, |doc.owners| + 1);
    assert SlotIds(doc, insertions, j)[m] == insertions[p].ownerId;
    a := from + m;
    assert Order(doc, insertions, |doc.owners| + 1)[from..from + |SlotIds(doc, insertions, j)|][m] ==
           insertions[p].ownerId;
  }

  lemma CurrentPosition(doc: Document, insertions: seq<Insertion>, k: nat) returns (b: nat)
    requires k < |doc.owners|
    ensures var order := Order(doc, insertions, |doc.owners| + 1);
            && b == |Order(doc, insertions, k)| + |At(doc, insertions, k)| < |order| && order[b] == doc.owners[k].id
            && b + 1 == |Order(doc, insertions, k + 1)|
  {
    hide Order, At;
    var ids, from := SlotIds(doc, insertions, k), |Order(doc, insertions, k)|;
    SlotOfOrder(doc, insertions, k, |doc.owners| + 1);
    assert ids[|ids| - 1] == doc.owners[k].id && |ids| == |At(doc, insertions, k)| + 1;
    b := from + |ids| - 1;
    assert Order(doc, insertions, |doc.owners| + 1)[from..from + |ids|][|ids| - 1] == doc.owners[k].id;
  }

  /**
   * An inserted owner stands in front of the current owner it is anchored to and everything after that,
   * and behind all current owners before; without an anchor it stands behind all current owners.
   */
  lemma InsertedOwnerStandsInSlot(input: Input, insertions: seq<Insertion>, p: nat, k: nat)
    returns (a: nat, b: nat, anchor: nat)
    requires Renderable(input, insertions) && p < |insertions| && k < |input.current.owners|
    ensures var order := OrderOf(Selected(input, insertions));
            a < |order| && b < |order| && order[a] == insertions[p].ownerId && order[b] == input.current.owners[k].id
    ensures anchor <= |input.current.owners|
    ensures insertions[p].before == if anchor < |input.current.owners| then Some(input.current.owners[anchor].id)
            else None
    ensures if k < anchor then b < a else a < b
  {
    hide Input.Comparable, OffsetsFit, Order, At, SelectedOwners, PlanFits, Input.Matched, OrderOf;
    RenderableIsMatched(input, insertions);
    PlanIsIncoming(input, insertions);
    SelectedOrder(input, insertions, |input.current.owners| + 1);
    anchor := SlotOfInsertion(input, insertions, p);
    a := InsertedPosition(input, insertions, p, anchor);
    b := CurrentPosition(input.current, insertions, k);
    if k < anchor {
      SlotsAscend(input.current, insertions, k, anchor);
    } else if anchor < k {
      SlotsAscend(input.current, insertions, anchor, k);
      SlotOfOrder(input.current, insertions, anchor, |input.current.owners| + 1);
    }
  }

  // ----- which offsets are accepted

  /** The offset lies between the owner it is anchored to and the one before that, or behind all owners. */
  predicate InOwnGap(doc: Document, i: Insertion) {
    && IsCharBoundary(doc.source, i.offset)
    && i.offset <= |doc.source|
    && (forall k :: 0 <= k < |doc.owners| && i.before == Some(doc.owners[k].id) ==>
          (k > 0 ==> doc.owners[k - 1].end <= i.offset) && i.offset <= doc.owners[k].start)
    && (i.before.None? && doc.owners != [] ==> doc.owners[|doc.owners| - 1].end <= i.offset)
  }

  lemma {:induction false} StandsBehindGap(doc: Document, insertions: seq<Insertion>, k: nat, j: nat)
    requires k <= |doc.owners| && j <= |At(doc, insertions, k)|
    requires SlotFits(doc, insertions, k)
    ensures PriorEnd(doc, k) <= StandsAt(At(doc, insertions, k), PriorEnd(doc, k), j)
    ensures forall i :: 0 <= i < j ==>
              At(doc, insertions, k)[i].offset <= StandsAt(At(doc, insertions, k), PriorEnd(doc, k), j)
  {
    hide At, IsCharBoundary;
    if j > 0 {
      StandsBehindGap(doc, insertions, k, j - 1);
      assert OffsetFits(doc, At(doc, insertions, k), k, j - 1);
    }
  }

  lemma InSlotMeansInGap(doc: Document, i: Insertion, k: nat)
    requires ValidDocument(doc) && k <= |doc.owners| && i.before == Anchor(doc, k)
    ensures InOwnGap(doc, i) <==>
            PriorEnd(doc, k) <= i.offset <= NextStart(doc, k) && IsCharBoundary(doc.source, i.offset)
  {
    hide IsCharBoundary;
    SlotRanges(doc, k);
    forall j | 0 <= j < |doc.owners| && i.before == Some(doc.owners[j].id) ensures j == k {
      if j < k {
        AnchorsAreDistinct(doc, j, k);
      } else if k < j {
        AnchorsAreDistinct(doc, k, j);
      }
    }
  }

  /**
   * The offsets of a plan are accepted exactly when each lies in the gap it is anchored to, at a
   * character boundary, and the offsets of one gap do not decrease in plan order.
   */
  lemma AcceptedOffsets(input: Input, insertions: seq<Insertion>)
    requires input.Matched() && PlanFits(input, insertions)
    ensures OffsetsFit(input.current, insertions) <==>
            && (forall p :: 0 <= p < |insertions| ==> InOwnGap(input.current, insertions[p]))
            && (forall p, q :: 0 <= p < q < |insertions| && insertions[p].before == insertions[q].before ==>
                  insertions[p].offset <= insertions[q].offset)
  {
    if OffsetsFit(input.current, insertions) {
      FittingLies(input, insertions);
    }
    if (forall p :: 0 <= p < |insertions| ==> InOwnGap(input.current, insertions[p]))
       && (forall p, q :: 0 <= p < q < |insertions| && insertions[p].before == insertions[q].before ==>
             insertions[p].offset <= insertions[q].offset)
    {
      LyingFits(input, insertions);
    }
  }

  lemma FittingLies(input: Input, insertions: seq<Insertion>)
    requires input.Matched() && PlanFits(input, insertions) && OffsetsFit(input.current, insertions)
    ensures forall p :: 0 <= p < |insertions| ==> InOwnGap(input.current, insertions[p])
    ensures forall p, q :: 0 <= p < q < |insertions| && insertions[p].before == insertions[q].before ==>
              insertions[p].offset <= insertions[q].offset
  {
    hide Input.Matched, PlanFits, ValidDocument, InOwnGap, Filter, IsCharBoundary, StandsAt;
    MatchedIsValid(input);
    var doc := input.current;
    forall p | 0 <= p < |insertions| ensures InOwnGap(doc, insertions[p]) {
      var k := SlotOfInsertion(input, insertions, p);
      var anchor := Anchor(doc, k);
      FilterMembers(insertions, (i: Insertion) => i.before == anchor);
      assert insertions[p] in At(doc, insertions, k);
      var j :| 0 <= j < |At(doc, insertions, k)| && At(doc, insertions, k)[j] == insertions[p];
      assert SlotFits(doc, insertions, k) && OffsetFits(doc, At(doc, insertions, k), k, j);
      StandsBehindGap(doc, insertions, k, j);
      InSlotMeansInGap(doc, insertions[p], k);
    }
    forall p, q | 0 <= p < q < |insertions| && insertions[p].before == insertions[q].before
      ensures insertions[p].offset <= insertions[q].offset
    {
      var k := SlotOfInsertion(input, insertions, p);
      var anchor := Anchor(doc, k);
      var a, b := FilterKeepsOrder(insertions, (i: Insertion) => i.before == anchor, p, q);
      assert SlotFits(doc, insertions, k) && OffsetFits(doc, At(doc, insertions, k), k, b);
      StandsBehindGap(doc, insertions, k, b);
    }
  }

  lemma LyingFits(input: Input, insertions: seq<Insertion>)
    requires input.Matched() && PlanFits(input, insertions)
    requires forall p :: 0 <= p < |insertions| ==> InOwnGap(input.current, insertions[p])
    requires forall p, q :: 0 <= p < q < |insertions| && insertions[p].before == insertions[q].before ==>
               insertions[p].offset <= insertions[q].offset
    ensures OffsetsFit(input.current, insertions)
  {
    hide Input.Matched, PlanFits, ValidDocument, InOwnGap, Filter, IsCharBoundary;
    MatchedIsValid(input);
    var doc := input.current;
    forall k, j | 0 <= k <= |doc.owners| && 0 <= j < |At(doc, insertions, k)|
      ensures OffsetFits(doc, At(doc, insertions, k), k, j)
    {
      var anchor := Anchor(doc, k);
      var keep := (i: Insertion) => i.before == anchor;
      var slot := At(doc, insertions, k);
      FilteredIsMember(insertions, keep, j);
      InSlotMeansInGap(doc, slot[j], k);
      if j > 0 {
        FilteredIsMember(insertions, keep, j - 1);
        var p, q := FilterComesFrom(insertions, keep, j - 1, j);
      }
    }
  }
}
