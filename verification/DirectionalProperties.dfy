/** Which owners, and which incoming bytes, a directional render contains. */
module DirectionalProperties {
  import opened Wrappers
  import opened Sequences
  import opened Bytes
  import opened Documents
  import opened DirectionalRender

  // ----- every insertion is placed exactly once

  /** The insertions of the first `k` slots, in output order. */
  function Emitted(doc: Document, insertions: seq<Insertion>, k: nat): seq<Insertion>
    requires k <= |doc.owners| + 1
  {
    if k == 0 then [] else Emitted(doc, insertions, k - 1) + At(doc, insertions, k - 1)
  }

  /** The slot is one of the first `k`. */
  predicate AnchoredBelow(doc: Document, before: Option<string>, k: nat)
    requires k <= |doc.owners| + 1
  {
    exists j :: 0 <= j < k && Anchor(doc, j) == before
  }

  lemma AnchorsAreDistinct(doc: Document, i: nat, j: nat)
    requires ValidDocument(doc) && i < j <= |doc.owners|
    ensures Anchor(doc, i) != Anchor(doc, j)
  {
    if j < |doc.owners| {
      assert OwnerFits(doc, j);
    }
  }

  lemma AtGrows(doc: Document, insertions: seq<Insertion>, insertion: Insertion, k: nat)
    requires k <= |doc.owners|
    ensures At(doc, insertions + [insertion], k) ==
            At(doc, insertions, k) + if insertion.before == Anchor(doc, k) then [insertion] else []
  {
    var anchor := Anchor(doc, k);
    var keep := (i: Insertion) => i.before == anchor;
    FilterAppend(insertions, [insertion], keep);
    assert [insertion][1..] == [];
    assert At(doc, insertions + [insertion], k) == Filter(insertions + [insertion], keep);
  }

  /** One more planned insertion is emitted once if its slot is among the first `k`, else not yet. */
  ghost predicate EmitsOneMore(doc: Document, insertions: seq<Insertion>, insertion: Insertion, k: nat)
    requires k <= |doc.owners| + 1
  {
    multiset(Emitted(doc, insertions + [insertion], k)) ==
    multiset(Emitted(doc, insertions, k))
    + if AnchoredBelow(doc, insertion.before, k) then multiset{insertion} else multiset{}
  }

  lemma {:induction false} EmittedGrows(doc: Document, insertions: seq<Insertion>, insertion: Insertion, k: nat)
    requires ValidDocument(doc) && k <= |doc.owners| + 1
    ensures EmitsOneMore(doc, insertions, insertion, k)
  {
    if k > 0 {
      hide EmitsOneMore;
      EmittedGrows(doc, insertions, insertion, k - 1);
      EmittedGrowsStep(doc, insertions, insertion, k - 1);
    }
  }

  lemma EmittedGrowsStep(doc: Document, insertions: seq<Insertion>, insertion: Insertion, k: nat)
    requires ValidDocument(doc) && k <= |doc.owners| && EmitsOneMore(doc, insertions, insertion, k)
    ensures EmitsOneMore(doc, insertions, insertion, k + 1)
  {
    hide At, ValidDocument, AnchoredBelow, Anchor;
    AtGrows(doc, insertions, insertion, k);
    AnchoredGrows(doc, insertion.before, k);
    var known := if AnchoredBelow(doc, insertion.before, k) then multiset{insertion} else multiset{};
    var added := if insertion.before == Anchor(doc, k) then [insertion] else [];
    AddToBoth(Emitted(doc, insertions, k), Emitted(doc, insertions + [insertion], k), At(doc, insertions, k), known,
              added);
  }

  lemma AddToBoth(before: seq<Insertion>, after: seq<Insertion>, slot: seq<Insertion>, known: multiset<Insertion>,
                  added: seq<Insertion>)
    requires multiset(after) == multiset(before) + known
    ensures multiset(after + (slot + added)) == multiset(before + slot) + known + multiset(added)
  {}

  /** A slot is the last one, or one before it, and never both. */
  lemma AnchoredGrows(doc: Document, before: Option<string>, k: nat)
    requires ValidDocument(doc) && k <= |doc.owners|
    ensures AnchoredBelow(doc, before, k + 1) <==> AnchoredBelow(doc, before, k) || before == Anchor(doc, k)
    ensures !(AnchoredBelow(doc, before, k) && before == Anchor(doc, k))
  {
    hide ValidDocument;
    forall j | 0 <= j < k ensures Anchor(doc, j) != Anchor(doc, k) {
      AnchorsAreDistinct(doc, j, k);
    }
  }

  lemma {:induction false} NothingEmitted(doc: Document, k: nat)
    requires k <= |doc.owners| + 1
    ensures Emitted(doc, [], k) == []
  {
    if k > 0 {
      NothingEmitted(doc, k - 1);
    }
  }

  /** Slots share out the plan: nothing is dropped and nothing is placed twice. */
  lemma {:induction false} EmittedIsPlanned(doc: Document, insertions: seq<Insertion>)
    requires ValidDocument(doc)
    requires forall i :: 0 <= i < |insertions| ==> AnchoredBelow(doc, insertions[i].before, |doc.owners| + 1)
    ensures multiset(Emitted(doc, insertions, |doc.owners| + 1)) == multiset(insertions)
  {
    if insertions == [] {
      NothingEmitted(doc, |doc.owners| + 1);
    } else {
      hide Emitted, AnchoredBelow, ValidDocument;
      var init, last := insertions[..|insertions| - 1], insertions[|insertions| - 1];
      assert insertions == init + [last];
      EmittedIsPlanned(doc, init);
      EmittedGrows(doc, init, last, |doc.owners| + 1);
    }
  }

  lemma PlannedIsAnchored(input: Input, insertions: seq<Insertion>, i: nat)
    requires input.Matched() && PlanFits(input, insertions) && i < |insertions|
    ensures AnchoredBelow(input.current, insertions[i].before, |input.current.owners| + 1)
  {
    assert InsertionFits(input, insertions[i]);
    var doc := input.current;
    if insertions[i].before.Some? {
      var j :| 0 <= j < |doc.owners| && OwnerIds(doc)[j] == insertions[i].before.value;
      assert Anchor(doc, j) == insertions[i].before;
    } else {
      assert Anchor(doc, |doc.owners|) == insertions[i].before;
    }
  }

  lemma EmittedOnce(input: Input, insertions: seq<Insertion>)
    requires input.Matched() && PlanFits(input, insertions)
    ensures multiset(Emitted(input.current, insertions, |input.current.owners| + 1)) == multiset(insertions)
  {
    hide Input.Matched, PlanFits, AnchoredBelow, Emitted;
    forall i | 0 <= i < |insertions|
      ensures AnchoredBelow(input.current, insertions[i].before, |input.current.owners| + 1)
    {
      PlannedIsAnchored(input, insertions, i);
    }
    MatchedIsValid(input);
    EmittedIsPlanned(input.current, insertions);
  }

  lemma MatchedIsValid(input: Input)
    requires input.Matched()
    ensures ValidDocument(input.current) && ValidDocument(input.incoming)
  {}

  // ----- incoming bytes are emitted at most once

  lemma {:induction false} SlotIncoming(placed: seq<Insertion>, from: nat, j: nat)
    requires j <= |placed|
    ensures IncomingPieces(SlotPieces(placed, from, j)) == InsertedRanges(placed[..j])
  {
    if j > 0 {
      SlotIncoming(placed, from, j - 1);
      hide IncomingPieces, InsertedRanges, StandsAt;
      IncomingTwo(SlotPieces(placed, from, j - 1),
                  FromCurrent(ByteRange(StandsAt(placed, from, j - 1), placed[j - 1].offset)),
                  FromIncoming(placed[j - 1].range));
      InsertedOne(placed, j - 1);
    } else {
      assert placed[..0] == [] && InsertedRanges([]) == [] && IncomingPieces([]) == [];
    }
  }

  lemma IncomingTwo(before: seq<Piece>, kept: Piece, added: Piece)
    requires kept.FromCurrent? && added.FromIncoming?
    ensures IncomingPieces(before + [kept, added]) == IncomingPieces(before) + [added.range]
  {
    assert before + [kept, added] == before + [kept] + [added];
    hide IncomingPieces;
    IncomingAppend(before, [kept]);
    IncomingAppend(before + [kept], [added]);
    IncomingOne(kept);
    IncomingOne(added);
  }

  lemma InsertedOne(placed: seq<Insertion>, j: nat)
    requires j < |placed|
    ensures InsertedRanges(placed[..j + 1]) == InsertedRanges(placed[..j]) + [placed[j].range]
  {}

  lemma IncomingOne(piece: Piece)
    ensures IncomingPieces([piece]) == if piece.FromIncoming? then [piece.range] else []
  {
    assert [piece][..0] == [];
  }

  lemma {:induction false} IncomingAppend(a: seq<Piece>, b: seq<Piece>)
    ensures IncomingPieces(a + b) == IncomingPieces(a) + IncomingPieces(b)
    decreases |b|
  {
    if b == [] {
      assert a + b == a;
    } else {
      var n := |b| - 1;
      IncomingAppend(a, b[..n]);
      assert (a + b)[..|a + b| - 1] == a + b[..n];
    }
  }

  lemma {:induction false} PiecesIncoming(doc: Document, insertions: seq<Insertion>, k: nat)
    requires k <= |doc.owners| + 1
    ensures IncomingPieces(Pieces(doc, insertions, k)) == InsertedRanges(Emitted(doc, insertions, k))
  {
    if k > 0 {
      hide At, IncomingPieces, SlotPieces, SlotRest, InsertedRanges;
      var placed := At(doc, insertions, k - 1);
      var slot, rest := SlotPieces(placed, PriorEnd(doc, k - 1), |placed|), SlotRest(doc, insertions, k - 1);
      PiecesIncoming(doc, insertions, k - 1);
      SlotIncoming(placed, PriorEnd(doc, k - 1), |placed|);
      assert placed[..|placed|] == placed;
      IncomingAppend(Pieces(doc, insertions, k - 1), slot);
      IncomingAppend(Pieces(doc, insertions, k - 1) + slot, [rest]);
      IncomingOne(rest);
      RestIsCurrent(doc, insertions, k - 1);
      InsertedRangesAppend(Emitted(doc, insertions, k - 1), placed);
    } else {
      assert IncomingPieces([]) == [];
    }
  }

  lemma RestIsCurrent(doc: Document, insertions: seq<Insertion>, k: nat)
    requires k <= |doc.owners|
    ensures SlotRest(doc, insertions, k).FromCurrent?
  {}

  lemma InsertedRangesAppend(a: seq<Insertion>, b: seq<Insertion>)
    ensures InsertedRanges(a + b) == InsertedRanges(a) + InsertedRanges(b)
  {}

  /** No incoming byte is emitted twice, and what is emitted is exactly the planned ranges. */
  lemma IncomingEmittedOnce(input: Input, insertions: seq<Insertion>)
    requires Renderable(input, insertions)
    ensures var ranges := IncomingPieces(Pieces(input.current, insertions, |input.current.owners| + 1));
            PairwiseApart(ranges) && multiset(ranges) == multiset(InsertedRanges(insertions))
  {
    var emitted := Emitted(input.current, insertions, |input.current.owners| + 1);
    hide Emitted, Pieces, IncomingPieces, InsertionFits, OffsetsFit;
    EmittedOnce(input, insertions);
    PiecesIncoming(input.current, insertions, |input.current.owners| + 1);
    MapPermutes((i: Insertion) => i.range, emitted, insertions);
    FittingRangesAreNonempty(input, insertions);
    SameRanges(emitted, insertions);
    ApartPermutes(InsertedRanges(insertions), InsertedRanges(emitted));
  }

  lemma SameRanges(a: seq<Insertion>, b: seq<Insertion>)
    requires multiset(a) == multiset(b)
    ensures multiset(InsertedRanges(a)) == multiset(InsertedRanges(b))
  {
    MapPermutes((i: Insertion) => i.range, a, b);
    assert InsertedRanges(a) == Map((i: Insertion) => i.range, a);
    assert InsertedRanges(b) == Map((i: Insertion) => i.range, b);
  }

  lemma SameIds(a: seq<Insertion>, b: seq<Insertion>)
    requires multiset(a) == multiset(b)
    ensures multiset(InsertedIds(a)) == multiset(InsertedIds(b))
  {
    MapPermutes((i: Insertion) => i.ownerId, a, b);
    assert InsertedIds(a) == Map((i: Insertion) => i.ownerId, a);
    assert InsertedIds(b) == Map((i: Insertion) => i.ownerId, b);
  }

  // ----- the owners of the output

  /** The current owner of slot `k`; the suffix has none. */
  function Own(doc: Document, k: nat): seq<string>
    requires k <= |doc.owners|
  {
    if k < |doc.owners| then [doc.owners[k].id] else []
  }

  /** The current owners of the first `k` slots. */
  function CurrentIds(doc: Document, k: nat): seq<string>
    requires k <= |doc.owners| + 1
  {
    OwnerIds(doc)[..if k <= |doc.owners| then k else |doc.owners|]
  }

  lemma CurrentIdsGrow(doc: Document, k: nat)
    requires k <= |doc.owners|
    ensures CurrentIds(doc, k + 1) == CurrentIds(doc, k) + Own(doc, k)
  {}

  /** Identities of the first `k` slots: each slot's insertions, then its current owner. */
  function Order(doc: Document, insertions: seq<Insertion>, k: nat): seq<string>
    requires k <= |doc.owners| + 1
  {
    if k == 0 then []
    else Order(doc, insertions, k - 1) + InsertedIds(At(doc, insertions, k - 1)) + Own(doc, k - 1)
  }

  lemma OrderAppend(a: seq<Placed>, b: seq<Placed>)
    ensures OrderOf(a + b) == OrderOf(a) + OrderOf(b)
  {}

  lemma PlacedIds(input: Input, placed: seq<Insertion>)
    requires input.Matched() && AllIncoming(input, placed)
    ensures OrderOf(PlacedInsertions(input, placed)) == InsertedIds(placed)
  {
    forall j | 0 <= j < |placed| ensures PlacedInsertions(input, placed)[j].owner.id == placed[j].ownerId {
      OwnerIsSliceable(input.incoming, placed[j].ownerId);
    }
  }

  lemma {:induction false} SelectedOrder(input: Input, insertions: seq<Insertion>, k: nat)
    requires input.Matched() && AllIncoming(input, insertions) && k <= |input.current.owners| + 1
    ensures OrderOf(SelectedOwners(input, insertions, k)) == Order(input.current, insertions, k)
  {
    if k > 0 {
      hide At, Input.Matched, OrderOf, PlacedInsertions;
      var placed := At(input.current, insertions, k - 1);
      AtIsPlanned(input, insertions, k - 1);
      SelectedOrder(input, insertions, k - 1);
      PlacedIds(input, placed);
      var own := if k - 1 < |input.current.owners| then [Placed(input.current.owners[k - 1], false)] else [];
      OrderAppend(SelectedOwners(input, insertions, k - 1), PlacedInsertions(input, placed));
      OrderAppend(SelectedOwners(input, insertions, k - 1) + PlacedInsertions(input, placed), own);
      OrderOfOwn(own);
    } else {
      assert OrderOf([]) == [];
    }
  }

  lemma OrderOfOwn(own: seq<Placed>)
    ensures |own| == 1 ==> OrderOf(own) == [own[0].owner.id]
    ensures own == [] ==> OrderOf(own) == []
  {}

  /** Through slot `k` the output's owners are the current ones and the inserted ones, with multiplicities. */
  ghost predicate OwnersAddUp(doc: Document, insertions: seq<Insertion>, k: nat)
    requires k <= |doc.owners| + 1
  {
    multiset(Order(doc, insertions, k)) ==
    multiset(CurrentIds(doc, k)) + multiset(InsertedIds(Emitted(doc, insertions, k)))
  }

  lemma {:induction false} OrderIsBoth(doc: Document, insertions: seq<Insertion>, k: nat)
    requires k <= |doc.owners| + 1
    ensures OwnersAddUp(doc, insertions, k)
  {
    if k > 0 {
      hide OwnersAddUp;
      OrderIsBoth(doc, insertions, k - 1);
      OrderStep(doc, insertions, k - 1);
    }
  }

  lemma OrderStep(doc: Document, insertions: seq<Insertion>, k: nat)
    requires k <= |doc.owners| && OwnersAddUp(doc, insertions, k)
    ensures OwnersAddUp(doc, insertions, k + 1)
  {
    hide At, CurrentIds, Own, InsertedIds;
    CurrentIdsGrow(doc, k);
    InsertedIdsAppend(Emitted(doc, insertions, k), At(doc, insertions, k));
    AddBoth(Order(doc, insertions, k), CurrentIds(doc, k), InsertedIds(Emitted(doc, insertions, k)),
            InsertedIds(At(doc, insertions, k)), Own(doc, k));
  }

  lemma AddBoth(order: seq<string>, current: seq<string>, emitted: seq<string>, inserted: seq<string>, own: seq<string>)
    requires multiset(order) == multiset(current) + multiset(emitted)
    ensures multiset(order + inserted + own) == multiset(current + own) + multiset(emitted + inserted)
  {}

  lemma InsertedIdsAppend(a: seq<Insertion>, b: seq<Insertion>)
    ensures InsertedIds(a + b) == InsertedIds(a) + InsertedIds(b)
  {}

  lemma {:induction false} OrderRestricted(input: Input, insertions: seq<Insertion>, k: nat, keep: string -> bool)
    requires input.Matched() && PlanFits(input, insertions) && k <= |input.current.owners| + 1
    requires forall id :: keep(id) <==> id in OwnerIds(input.current)
    ensures Filter(Order(input.current, insertions, k), keep) ==
            CurrentIds(input.current, k)
  {
    var doc := input.current;
    if k > 0 {
      hide At, Input.Matched, PlanFits, CurrentIds, InsertedIds, Filter, OwnerIds, Own;
      OrderRestricted(input, insertions, k - 1, keep);
      SlotRestricted(input, insertions, k - 1, keep);
      var inserted := InsertedIds(At(doc, insertions, k - 1));
      FilterAppend(Order(doc, insertions, k - 1), inserted, keep);
      FilterAppend(Order(doc, insertions, k - 1) + inserted, Own(doc, k - 1), keep);
      CurrentIdsGrow(doc, k - 1);
      assert CurrentIds(doc, k - 1) + [] == CurrentIds(doc, k - 1);
    }
  }

  lemma SlotRestricted(input: Input, insertions: seq<Insertion>, k: nat, keep: string -> bool)
    requires input.Matched() && PlanFits(input, insertions) && k <= |input.current.owners|
    requires forall id :: keep(id) <==> id in OwnerIds(input.current)
    ensures Filter(InsertedIds(At(input.current, insertions, k)), keep) == []
    ensures Filter(Own(input.current, k), keep) == Own(input.current, k)
  {
    hide At, Input.Matched, PlanFits, Filter;
    InsertedAreNotCurrent(input, insertions, k);
    FilterKeepsNone(InsertedIds(At(input.current, insertions, k)), keep);
    OwnIsCurrent(input.current, k);
    FilterKeepsAll(Own(input.current, k), keep);
  }

  lemma OwnIsCurrent(doc: Document, k: nat)
    requires k <= |doc.owners|
    ensures forall id :: id in Own(doc, k) ==> id in OwnerIds(doc)
  {
    if k < |doc.owners| {
      assert OwnerIds(doc)[k] == doc.owners[k].id;
    }
  }

  lemma InsertedAreNotCurrent(input: Input, insertions: seq<Insertion>, k: nat)
    requires input.Matched() && PlanFits(input, insertions) && k <= |input.current.owners|
    ensures var ids := InsertedIds(At(input.current, insertions, k));
            forall j :: 0 <= j < |ids| ==> ids[j] !in OwnerIds(input.current)
  {
    PlanIsIncoming(input, insertions);
    AtIsPlanned(input, insertions, k);
    var placed := At(input.current, insertions, k);
    forall j | 0 <= j < |placed| ensures placed[j].ownerId !in OwnerIds(input.current) {
      assert placed[j] in insertions;
      var i :| 0 <= i < |insertions| && insertions[i] == placed[j];
      assert InsertionFits(input, insertions[i]);
    }
  }

  /**
   * Directional ownership. In every renderable plan the output's owner order, restricted to current
   * identities, is the current order; every identity occurs once; and the identities are the current
   * ones and the incoming-only ones.
   */
  lemma OwnershipIsComplete(input: Input, insertions: seq<Insertion>)
    requires Renderable(input, insertions)
    ensures var order := OrderOf(Selected(input, insertions));
            && Filter(order, (id: string) => id in OwnerIds(input.current)) == OwnerIds(input.current)
            && Distinct(order)
            && (forall id :: id in order <==> id in OwnerIds(input.current) || id in input.Additions())
  {
    hide Input.Comparable, OffsetsFit, OrderOf, SelectedOwners;
    var doc, n := input.current, |input.current.owners|;
    var order, emitted := Order(doc, insertions, n + 1), Emitted(doc, insertions, n + 1);
    ComparableIsMatched(input);
    PlanIsIncoming(input, insertions);
    SelectedOrder(input, insertions, n + 1);
    OrderRestricted(input, insertions, n + 1, (id: string) => id in OwnerIds(doc));
    assert OwnerIds(doc)[..n] == OwnerIds(doc);
    EmittedOnce(input, insertions);
    SameIds(emitted, insertions);
    OrderIsBoth(doc, insertions, n + 1);
    UnionIsDistinct(input, insertions, order);
  }

  lemma UnionIsDistinct(input: Input, insertions: seq<Insertion>, order: seq<string>)
    requires input.Matched() && PlanFits(input, insertions)
    requires multiset(order) == multiset(OwnerIds(input.current)) + multiset(InsertedIds(insertions))
    ensures Distinct(order)
    ensures forall id :: id in order <==> id in OwnerIds(input.current) || id in input.Additions()
  {
    var current, inserted := OwnerIds(input.current), InsertedIds(insertions);
    ValidIdsAreDistinct(input.current);
    DistinctIsMultiplicity(current);
    DistinctIsMultiplicity(inserted);
    DistinctIsMultiplicity(order);
    assert forall id :: id in inserted <==> id in input.Additions() by {
      assert forall id :: id in inserted <==> id in (set x | x in inserted);
    }
    forall id ensures (id in order <==> id in current || id in inserted) && (id in order ==> multiset(order)[id] == 1) {
      assert id in order <==> id in multiset(order);
      assert id in current <==> id in multiset(current);
      assert id in inserted <==> id in multiset(inserted);
    }
  }
}
