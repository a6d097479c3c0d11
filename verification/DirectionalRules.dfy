/** What a directional run decides, accepts and confirms, said of the owners of the two sides. */
module DirectionalRules {
  import opened Wrappers
  import opened Sequences
  import opened Text
  import opened Bytes
  import opened Documents
  import opened Directional
  import opened DirectionalRender
  import opened DirectionalProperties

  /** The document has that owner under the id. */
  predicate Has(doc: Document, id: string, owner: Owner) {
    owner in doc.owners && owner.id == id
  }

  predicate HasId(doc: Document, id: string) {
    exists owner :: owner in doc.owners && owner.id == id
  }

  function BytesOf(doc: Document, owner: Owner): Option<ByteString> {
    Get(doc.source, ByteRange(owner.start, owner.end))
  }

  lemma OwnerIsFound(doc: Document, id: string)
    requires ValidDocument(doc)
    ensures forall owner :: Has(doc, id, owner) <==> Lookup(doc, id) == Some(owner)
    ensures Lookup(doc, id).Some? <==> HasId(doc, id)
    ensures HasId(doc, id) <==> id in OwnerIds(doc)
  {
    IdIsOwned(doc, id);
    forall owner | Has(doc, id, owner) ensures Lookup(doc, id) == Some(owner) {
      var k :| 0 <= k < |doc.owners| && doc.owners[k] == owner;
      assert OwnerIds(doc)[k] == id;
      IdsAreOnce(doc, owner, Lookup(doc, id).value);
    }
  }

  lemma IdsAreOnce(doc: Document, a: Owner, b: Owner)
    requires ValidDocument(doc) && a in doc.owners && b in doc.owners && a.id == b.id
    ensures a == b
  {
    var j :| 0 <= j < |doc.owners| && doc.owners[j] == a;
    var k :| 0 <= k < |doc.owners| && doc.owners[k] == b;
    assert OwnerFits(doc, j) && OwnerFits(doc, k);
  }

  lemma OwnerIsCut(doc: Document, owner: Owner)
    requires ValidDocument(doc) && owner in doc.owners
    ensures owner.start < owner.end <= |doc.source| && BytesOf(doc, owner) == Some(doc.source[owner.start..owner.end])
    ensures IsCharBoundary(doc.source, owner.start) && IsCharBoundary(doc.source, owner.end)
  {
    var k :| 0 <= k < |doc.owners| && doc.owners[k] == owner;
    assert OwnerFits(doc, k);
  }

  // ----- classification

  /** Owners of one id on both sides stand at one path. */
  ghost predicate PathsAgree(input: Input) {
    forall a, b :: a in input.incoming.owners && b in input.current.owners && a.id == b.id ==> a.path == b.path
  }

  /** A run is possible exactly for two distinct, matching, valid sides whose shared owners keep their paths. */
  lemma ComparableIsExact(input: Input)
    ensures input.Comparable() <==>
            && input.pair.incoming.role == Incoming && input.pair.current.role == Current
            && input.pair.incoming.sourceId != input.pair.current.sourceId
            && input.pair.incoming.bytes == input.incoming.source && input.pair.current.bytes == input.current.source
            && ValidDocument(input.incoming) && ValidDocument(input.current)
            && PathsAgree(input)
  {
    hide ValidDocument, Lookup;
    if input.Matched() {
      forall id ensures
          (forall a :: Has(input.incoming, id, a) <==> Lookup(input.incoming, id) == Some(a))
          && (forall b :: Has(input.current, id, b) <==> Lookup(input.current, id) == Some(b))
          && (Lookup(input.current, id).Some? <==> id in OwnerIds(input.current))
      {
        OwnerIsFound(input.incoming, id);
        OwnerIsFound(input.current, id);
      }
      if input.Comparable() {
        forall a, b | a in input.incoming.owners && b in input.current.owners && a.id == b.id ensures a.path == b.path {
          assert Has(input.incoming, a.id, a) && Has(input.current, a.id, b);
          assert Lookup(input.incoming, a.id) == Some(a) && Lookup(input.current, a.id) == Some(b);
          assert a.id in OwnerIds(input.current) + OwnerIds(input.incoming);
          assert input.PathAgrees(a.id);
        }
      }
      if PathsAgree(input) {
        forall id ensures input.PathAgrees(id) {
          if Lookup(input.incoming, id).Some? && Lookup(input.current, id).Some? {
            assert Has(input.incoming, id, Lookup(input.incoming, id).value);
            assert Has(input.current, id, Lookup(input.current, id).value);
          }
        }
      }
    }
  }

  /** The region is the owner's stretch of that source. */
  predicate IsRegionOf(region: Option<Region>, source: SourceDocument, owner: Owner, sha: Digest) {
    && region.Some? && owner.start <= owner.end <= |source.bytes|
    && region.value.sourceId == source.sourceId && region.value.role == source.role
    && region.value.range == ByteRange(owner.start, owner.end)
    && region.value.sha256 == sha(source.bytes[owner.start..owner.end])
  }

  /**
   * What a decision says of its owner: identical bytes are retained, changed ones yield to the current
   * side, an owner of one side only is kept or added; both regions are the owner's own stretches.
   */
  lemma DecisionsAreExact(input: Input, c: Classification, sha: Digest, k: nat)
    requires input.Comparable() && Classifies(input, c, sha) && k < |c.decisions|
    ensures var d := c.decisions[k];
            && (HasId(input.incoming, d.ownerId) || HasId(input.current, d.ownerId))
            && (d.action == AddIncomingOnly <==> !HasId(input.current, d.ownerId))
            && (d.action == RetainCurrentOnly <==> !HasId(input.incoming, d.ownerId))
            && (d.action == RetainIdenticalCurrent <==>
                exists a, b :: Has(input.incoming, d.ownerId, a) && Has(input.current, d.ownerId, b)
                  && BytesOf(input.incoming, a) == BytesOf(input.current, b))
            && (forall a :: Has(input.incoming, d.ownerId, a) ==>
                  d.path == a.path && IsRegionOf(d.incoming, input.pair.incoming, a, sha))
            && (forall b :: Has(input.current, d.ownerId, b) ==>
                  d.path == b.path && IsRegionOf(d.current, input.pair.current, b, sha))
            && (d.incoming.None? <==> !HasId(input.incoming, d.ownerId))
            && (d.current.None? <==> !HasId(input.current, d.ownerId))
            && d.id == "directional-decision-" + Decimal(k)
  {
    hide ValidDocument, Lookup, Decimal, LayoutOf, FirstOccurrences;
    var ids := FirstOccurrences(OwnerIds(input.current) + OwnerIds(input.incoming));
    var d, id := c.decisions[k], ids[k];
    OwnerIsFound(input.incoming, id);
    OwnerIsFound(input.current, id);
    assert d == DecisionFor(input, id, k, sha);
    if HasId(input.incoming, id) {
      OwnerIsCut(input.incoming, Lookup(input.incoming, id).value);
    }
    if HasId(input.current, id) {
      OwnerIsCut(input.current, Lookup(input.current, id).value);
    }
    if HasId(input.incoming, id) && HasId(input.current, id) {
      assert id in OwnerIds(input.current) + OwnerIds(input.incoming);
      assert input.PathAgrees(id);
    }
  }

  /** The decided owners: those of the current side in its order, then the incoming-only ones in theirs. */
  lemma DecisionOrder(input: Input, c: Classification, sha: Digest)
    requires input.Comparable() && Classifies(input, c, sha)
    ensures Map((d: Decision) => d.ownerId, c.decisions) ==
            OwnerIds(input.current)
            + Filter(OwnerIds(input.incoming), (id: string) => id !in OwnerIds(input.current))
  {
    hide ValidDocument, Lookup, FirstOccurrences, LayoutOf;
    var current, incoming := OwnerIds(input.current), OwnerIds(input.incoming);
    ValidIdsAreDistinct(input.current);
    ValidIdsAreDistinct(input.incoming);
    DistinctUnion(current, incoming);
    var ids := FirstOccurrences(current + incoming);
    forall k | 0 <= k < |ids| ensures c.decisions[k].ownerId == ids[k] {
      assert c.decisions[k] == DecisionFor(input, ids[k], k, sha);
    }
  }

  lemma {:induction false} DistinctUnion(a: seq<string>, b: seq<string>)
    requires Distinct(a) && Distinct(b)
    ensures FirstOccurrences(a + b) == a + Filter(b, (x: string) => x !in a)
  {
    var isNew := (x: string) => x !in a;
    if b == [] {
      assert a + b == a;
      DistinctIsKept(a);
    } else {
      var n := |b| - 1;
      var x := b[n];
      assert b == b[..n] + [x] && a + b == a + b[..n] + [x];
      DistinctUnion(a, b[..n]);
      FirstOccurrencesGrow(a + b[..n], x);
      FilterAppend(b[..n], [x], isNew);
      assert [x][1..] == [];
      assert Filter([x], isNew) == if isNew(x) then [x] else [];
      assert x !in b[..n];
      assert x in FirstOccurrences(a + b[..n]) <==> x in a + b[..n];
    }
  }

  // ----- the plan

  predicate InRange(range: ByteRange, at: nat) {
    range.start <= at < range.end
  }

  /** The insertion carries one whole incoming-only owner and no byte of another, to a place the current side has. */
  ghost predicate CarriesOwner(input: Input, i: Insertion) {
    && !HasId(input.current, i.ownerId)
    && (i.before.Some? ==> HasId(input.current, i.before.value))
    && i.range.end <= |input.incoming.source|
    && IsCharBoundary(input.incoming.source, i.range.start) && IsCharBoundary(input.incoming.source, i.range.end)
    && exists a :: Has(input.incoming, i.ownerId, a)
         && i.range.start <= a.start && a.end <= i.range.end
         && forall b, at: nat :: b in input.incoming.owners && b.start <= at < b.end && InRange(i.range, at) ==> b == a
  }

  /** No byte of the incoming side is in two insertions. */
  ghost predicate NoByteTwice(insertions: seq<Insertion>) {
    forall p: nat, q: nat, at: nat ::
      p < q < |insertions| && InRange(insertions[p].range, at) ==> !InRange(insertions[q].range, at)
  }

  lemma AdditionIsNew(input: Input, id: string)
    requires input.Matched()
    ensures id in input.Additions() <==> HasId(input.incoming, id) && !HasId(input.current, id)
  {
    hide ValidDocument;
    OwnerIsFound(input.incoming, id);
    OwnerIsFound(input.current, id);
  }

  lemma HoldingIsExact(input: Input, i: Insertion, a: Owner)
    requires input.Matched() && Has(input.incoming, i.ownerId, a) && Lookup(input.incoming, i.ownerId) == Some(a)
    requires i.range.start <= a.start && a.end <= i.range.end
    ensures (forall k :: 0 <= k < |input.incoming.owners| && input.incoming.owners[k].id != a.id ==>
               !(i.range.start < input.incoming.owners[k].end && input.incoming.owners[k].start < i.range.end)) <==>
            forall b, at: nat :: b in input.incoming.owners && b.start <= at < b.end && InRange(i.range, at) ==> b == a
  {
    var doc := input.incoming;
    OwnerIsCut(doc, a);
    forall b | b in doc.owners && b != a ensures b.id != a.id && b.start < b.end {
      OwnerIsCut(doc, b);
      if b.id == a.id {
        IdsAreOnce(doc, a, b);
      }
    }
    hide ValidDocument, Lookup;
    if forall b, at: nat :: b in doc.owners && b.start <= at < b.end && InRange(i.range, at) ==> b == a {
      forall k | 0 <= k < |doc.owners| && doc.owners[k].id != a.id
        ensures !(i.range.start < doc.owners[k].end && doc.owners[k].start < i.range.end)
      {
        var b := doc.owners[k];
        assert b in doc.owners;
        var at := if b.start < i.range.start then i.range.start else b.start;
        assert b.start <= at < b.end && InRange(i.range, at) ==> b == a;
      }
    }
  }

  lemma FittingIsCarrying(input: Input, i: Insertion)
    requires input.Matched()
    ensures InsertionFits(input, i) <==> CarriesOwner(input, i)
  {
    hide ValidDocument, Lookup, Input.Additions, IsCharBoundary, InRange, HasId, Input.Matched, OwnerIds;
    AdditionIsNew(input, i.ownerId);
    MatchedIsValid(input);
    OwnerIsFound(input.incoming, i.ownerId);
    if i.before.Some? {
      OwnerIsFound(input.current, i.before.value);
    }
    if Lookup(input.incoming, i.ownerId).Some? {
      var a := Lookup(input.incoming, i.ownerId).value;
      assert Has(input.incoming, i.ownerId, a);
      if i.range.start <= a.start && a.end <= i.range.end {
        HoldingIsExact(input, i, a);
      }
    }
  }

  lemma ApartIsNoByteTwice(insertions: seq<Insertion>)
    requires AllNonempty(InsertedRanges(insertions))
    ensures PairwiseApart(InsertedRanges(insertions)) <==> NoByteTwice(insertions)
  {
    var ranges := InsertedRanges(insertions);
    if NoByteTwice(insertions) {
      forall p, q | 0 <= p < q < |ranges| ensures Apart(ranges[p], ranges[q]) {
        var at := if ranges[p].start < ranges[q].start then ranges[q].start else ranges[p].start;
        assert InRange(insertions[p].range, at) ==> !InRange(insertions[q].range, at);
      }
    }
    if PairwiseApart(ranges) {
      forall p: nat, q: nat, at: nat | p < q < |insertions| && InRange(insertions[p].range, at)
        ensures !InRange(insertions[q].range, at)
      {
        assert Apart(ranges[p], ranges[q]);
      }
    }
  }

  predicate IsPlanned(insertions: seq<Insertion>, id: string) {
    exists i :: i in insertions && i.ownerId == id
  }

  /**
   * A plan is accepted exactly when every insertion carries one whole incoming-only owner, every
   * incoming-only owner is carried by exactly one, and no incoming byte is carried twice.
   */
  lemma PlanIsExact(input: Input, insertions: seq<Insertion>)
    requires input.Matched()
    ensures PlanFits(input, insertions) <==>
            && (forall i :: i in insertions ==> CarriesOwner(input, i))
            && (forall p, q :: 0 <= p < q < |insertions| ==> insertions[p].ownerId != insertions[q].ownerId)
            && (forall a :: a in input.incoming.owners && !HasId(input.current, a.id) ==> IsPlanned(insertions, a.id))
            && NoByteTwice(insertions)
  {
    hide Input.Matched, CarriesOwner, InsertionFits, Input.Additions, NoByteTwice, PairwiseApart, InsertedRanges;
    forall i ensures InsertionFits(input, i) <==> CarriesOwner(input, i) {
      FittingIsCarrying(input, i);
    }
    assert (forall k :: 0 <= k < |insertions| ==> InsertionFits(input, insertions[k])) <==>
           (forall i :: i in insertions ==> CarriesOwner(input, i));
    if forall k :: 0 <= k < |insertions| ==> InsertionFits(input, insertions[k]) {
      FittingRangesAreNonempty(input, insertions);
      ApartIsNoByteTwice(insertions);
      PlannedIsAddition(input, insertions);
      DistinctIds(insertions);
    }
  }

  lemma DistinctIds(insertions: seq<Insertion>)
    ensures Distinct(InsertedIds(insertions)) <==>
            forall p, q :: 0 <= p < q < |insertions| ==> insertions[p].ownerId != insertions[q].ownerId
  {
    var ids := InsertedIds(insertions);
    assert forall k :: 0 <= k < |ids| ==> ids[k] == insertions[k].ownerId;
  }

  lemma PlannedIsAddition(input: Input, insertions: seq<Insertion>)
    requires input.Matched() && forall k :: 0 <= k < |insertions| ==> InsertionFits(input, insertions[k])
    ensures (set id | id in InsertedIds(insertions)) == input.Additions() <==>
            forall a :: a in input.incoming.owners && !HasId(input.current, a.id) ==> IsPlanned(insertions, a.id)
  {
    hide ValidDocument, Input.Matched, Input.Additions, HoldsOwner, HasId;
    var ids := InsertedIds(insertions);
    forall id ensures id in ids <==> IsPlanned(insertions, id) {
      if id in ids {
        var k :| 0 <= k < |ids| && ids[k] == id;
        assert insertions[k] in insertions;
      }
      if IsPlanned(insertions, id) {
        var i :| i in insertions && i.ownerId == id;
        var k :| 0 <= k < |insertions| && insertions[k] == i;
        assert ids[k] == id;
      }
    }
    forall id | id in ids ensures id in input.Additions() {
      var k :| 0 <= k < |ids| && ids[k] == id;
      assert InsertionFits(input, insertions[k]);
    }
    forall id ensures id in input.Additions() <==>
                      exists a :: a in input.incoming.owners && a.id == id && !HasId(input.current, a.id)
    {
      AdditionIsNew(input, id);
      IdIsHad(input.incoming, id);
    }
    var all := set id | id in ids;
    if forall a :: a in input.incoming.owners && !HasId(input.current, a.id) ==> IsPlanned(insertions, a.id) {
      forall id ensures id in all <==> id in input.Additions() {
        if id in input.Additions() {
          var a :| a in input.incoming.owners && a.id == id && !HasId(input.current, a.id);
          assert IsPlanned(insertions, a.id);
        }
      }
    }
    if all == input.Additions() {
      forall a | a in input.incoming.owners && !HasId(input.current, a.id) ensures IsPlanned(insertions, a.id) {
        assert a.id in input.Additions();
      }
    }
  }

  lemma IdIsHad(doc: Document, id: string)
    ensures HasId(doc, id) <==> exists a :: a in doc.owners && a.id == id
  {}

  // ----- the reparse

  /** The document has the owner unchanged: its path, its fingerprint and its bytes. */
  ghost predicate Keeps(doc: Document, source: Document, owner: Owner) {
    exists o :: Has(doc, owner.id, o) && o.path == owner.path && o.fingerprint == owner.fingerprint
      && BytesOf(doc, o) == BytesOf(source, owner)
  }

  /** Every current owner and every incoming-only one is kept. */
  ghost predicate KeepsBoth(input: Input, doc: Document) {
    && (forall b :: b in input.current.owners ==> Keeps(doc, input.current, b))
    && forall a :: a in input.incoming.owners && !HasId(input.current, a.id) ==> Keeps(doc, input.incoming, a)
  }

  /** What the output's owners are. */
  ghost predicate IsChoice(input: Input, p: Placed) {
    if p.fromIncoming then p.owner in input.incoming.owners && !HasId(input.current, p.owner.id)
    else p.owner in input.current.owners
  }

  lemma {:induction false} SelectedAreChoices(input: Input, insertions: seq<Insertion>, k: nat)
    requires input.Matched() && PlanFits(input, insertions) && AllIncoming(input, insertions)
    requires k <= |input.current.owners| + 1
    ensures forall p :: p in SelectedOwners(input, insertions, k) ==> IsChoice(input, p)
  {
    hide At, Input.Matched, PlanFits, IsChoice, AllIncoming, PlacedInsertions;
    if k > 0 {
      var placed := At(input.current, insertions, k - 1);
      AtIsPlanned(input, insertions, k - 1);
      SelectedAreChoices(input, insertions, k - 1);
      PlacedAreChoices(input, insertions, placed);
      if k - 1 < |input.current.owners| {
        CurrentIsChoice(input, input.current.owners[k - 1]);
      }
    }
  }

  lemma CurrentIsChoice(input: Input, b: Owner)
    requires b in input.current.owners
    ensures IsChoice(input, Placed(b, false))
  {}

  lemma PlacedAreChoices(input: Input, insertions: seq<Insertion>, placed: seq<Insertion>)
    requires input.Matched() && PlanFits(input, insertions) && AllIncoming(input, placed)
    requires forall i :: i in placed ==> i in insertions
    ensures forall p :: p in PlacedInsertions(input, placed) ==> IsChoice(input, p)
  {
    var chosen := PlacedInsertions(input, placed);
    hide Input.Matched, Input.Additions, HoldsOwner, HasId, Lookup;
    forall j | 0 <= j < |placed| ensures IsChoice(input, chosen[j]) {
      var i := placed[j];
      assert i in insertions;
      var k :| 0 <= k < |insertions| && insertions[k] == i;
      assert InsertionFits(input, insertions[k]);
      ChosenIsNew(input, i.ownerId);
    }
  }

  lemma ChosenIsNew(input: Input, id: string)
    requires input.Matched() && id in input.Additions()
    ensures Lookup(input.incoming, id).Some? && Lookup(input.incoming, id).value in input.incoming.owners
    ensures Lookup(input.incoming, id).value.id == id && !HasId(input.current, id)
  {
    hide ValidDocument;
    AdditionIsNew(input, id);
    OwnerIsFound(input.incoming, id);
    IdIsOwned(input.incoming, id);
  }

  lemma MatchingKeeps(input: Input, doc: Document, k: nat, p: Placed)
    requires input.Matched() && ValidDocument(doc) && k < |doc.owners| && IsChoice(input, p)
    ensures Matches(doc, k, input, p) ==>
              Keeps(doc, if p.fromIncoming then input.incoming else input.current, p.owner)
    ensures doc.owners[k].id == p.owner.id ==>
              (Keeps(doc, if p.fromIncoming then input.incoming else input.current, p.owner) ==>
                 Matches(doc, k, input, p))
  {
    var o := doc.owners[k];
    assert o in doc.owners;
    OwnerIsCut(doc, o);
    var source := if p.fromIncoming then input.incoming else input.current;
    if Keeps(doc, source, p.owner) && o.id == p.owner.id {
      var other :| Has(doc, p.owner.id, other) && other.path == p.owner.path
        && other.fingerprint == p.owner.fingerprint && BytesOf(doc, other) == BytesOf(source, p.owner);
      IdsAreOnce(doc, o, other);
    }
    hide ValidDocument, IsCharBoundary;
    if Matches(doc, k, input, p) {
      assert Has(doc, p.owner.id, o) && BytesOf(doc, o) == BytesOf(source, p.owner);
    }
  }

  /** The output place of an owner of either side. */
  lemma ChoiceAt(input: Input, insertions: seq<Insertion>, p: Placed) returns (k: nat)
    requires Renderable(input, insertions) && IsChoice(input, p)
    ensures k < |Selected(input, insertions)| && Selected(input, insertions)[k] == p
  {
    hide Input.Comparable, PlanFits, OffsetsFit, SelectedOwners;
    ComparableIsMatched(input);
    RenderableIsMatched(input, insertions);
    PlanIsIncoming(input, insertions);
    OwnershipIsComplete(input, insertions);
    SelectedAreChoices(input, insertions, |input.current.owners| + 1);
    var selected := Selected(input, insertions);
    var order := OrderOf(selected);
    assert p.owner.id in order by {
      OwnerIsFound(input.current, p.owner.id);
      AdditionIsNew(input, p.owner.id);
    }
    k :| 0 <= k < |order| && order[k] == p.owner.id;
    assert selected[k] in selected;
    if p.fromIncoming {
      IdsAreOnce(input.incoming, p.owner, selected[k].owner);
    } else {
      IdsAreOnce(input.current, p.owner, selected[k].owner);
    }
  }

  lemma ConfirmedKeeps(input: Input, insertions: seq<Insertion>, doc: Document, p: Placed)
    requires Renderable(input, insertions) && IsChoice(input, p) && ValidDocument(doc)
    requires |doc.owners| == |Selected(input, insertions)|
    requires forall k :: 0 <= k < |doc.owners| ==> Matches(doc, k, input, Selected(input, insertions)[k])
    ensures Keeps(doc, if p.fromIncoming then input.incoming else input.current, p.owner)
  {
    hide Input.Comparable, PlanFits, OffsetsFit, SelectedOwners, Matches, Keeps, IsChoice;
    ComparableIsMatched(input);
    var k := ChoiceAt(input, insertions, p);
    MatchingKeeps(input, doc, k, p);
  }

  /**
   * The reparse confirms a render exactly when it reads a valid document of that text, with the planned
   * owners in the planned order, that keeps every current owner and every incoming-only owner unchanged.
   */
  lemma ConfirmationIsExact(input: Input, insertions: seq<Insertion>, text: ByteString,
                            answer: Result<Document, string>)
    requires Renderable(input, insertions)
    ensures Confirms(input, Selected(input, insertions), text, answer) <==>
            && answer.Ok? && ValidDocument(answer.value) && answer.value.source == text
            && OwnerIds(answer.value) == OrderOf(Selected(input, insertions))
            && KeepsBoth(input, answer.value)
  {
    hide Input.Comparable, PlanFits, OffsetsFit, SelectedOwners, Keeps, ValidDocument, HasId;
    ComparableIsMatched(input);
    RenderableIsMatched(input, insertions);
    PlanIsIncoming(input, insertions);
    var selected := Selected(input, insertions);
    SelectedAreChoices(input, insertions, |input.current.owners| + 1);
    if answer.Ok? && ValidDocument(answer.value) {
      var doc := answer.value;
      if Confirms(input, selected, text, answer) {
        forall b | b in input.current.owners ensures Keeps(doc, input.current, b) {
          ConfirmedKeeps(input, insertions, doc, Placed(b, false));
        }
        forall a | a in input.incoming.owners && !HasId(input.current, a.id) ensures Keeps(doc, input.incoming, a) {
          ConfirmedKeeps(input, insertions, doc, Placed(a, true));
        }
      }
      if OwnerIds(doc) == OrderOf(selected) && KeepsBoth(input, doc) {
        forall k | 0 <= k < |selected| ensures Matches(doc, k, input, selected[k]) {
          assert OwnerIds(doc)[k] == selected[k].owner.id;
          assert selected[k] in selected;
          MatchingKeeps(input, doc, k, selected[k]);
        }
      }
    }
  }
}
