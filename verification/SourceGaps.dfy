/** The exact source gaps of an owner document: every byte that no owner has, in one slot. */
module SourceGaps {
  import opened Wrappers
  import opened Text
  import opened Bytes
  import opened Documents
  import opened ByteEvidence

  datatype SourceGap = SourceGap(
    id: string,
    range: ByteRange,
    sourceSha256: string,
    beforeOwnerId: Option<string>,
    afterOwnerId: Option<string>,
    controllerOwnerId: Option<string>)

  function IdBefore(doc: Document, k: nat): Option<string>
    requires k <= |doc.owners|
  {
    if k == 0 then None else Some(doc.owners[k - 1].id)
  }

  function IdAfter(doc: Document, k: nat): Option<string>
    requires k <= |doc.owners|
  {
    if k == |doc.owners| then None else Some(doc.owners[k].id)
  }

  function SlotAt(doc: Document, k: nat, sha: Digest): SourceGap
    requires ValidDocument(doc) && k <= |doc.owners|
  {
    SourceGap(Numbered("source-gap.", k), GapRange(doc, k), sha(Gap(doc, k)), IdBefore(doc, k), IdAfter(doc, k),
              if IdAfter(doc, k).Some? then IdAfter(doc, k) else IdBefore(doc, k))
  }

  /** `source_layout_gaps`: one slot before each owner and one suffix, or the document's defect. */
  method SourceLayoutGaps(doc: Document, sha: Digest) returns (r: Result<seq<SourceGap>, Defect>)
    ensures r.Ok? <==> ValidDocument(doc)
    ensures r.Ok? ==> |r.value| == |doc.owners| + 1
    ensures r.Ok? ==> forall k :: 0 <= k <= |doc.owners| ==> r.value[k] == SlotAt(doc, k, sha)
  {
    var defect := Validate(doc);
    if defect.Some? {
      return Err(defect.value);
    }
    hide ValidDocument;
    var gaps: seq<SourceGap> := [];
    var cursor := 0;
    var before: Option<string> := None;
    for k := 0 to |doc.owners| + 1
      invariant |gaps| == k
      invariant k <= |doc.owners| ==> cursor == PriorEnd(doc, k) && before == IdBefore(doc, k)
      invariant forall j :: 0 <= j < k ==> gaps[j] == SlotAt(doc, j, sha)
    {
      GapIsRange(doc, k);
      var end := if k < |doc.owners| then doc.owners[k].start else |doc.source|;
      var afterId := if k < |doc.owners| then Some(doc.owners[k].id) else None;
      gaps := gaps + [SourceGap(Numbered("source-gap.", |gaps|), ByteRange(cursor, end), sha(doc.source[cursor..end]),
                                before, afterId, if afterId.Some? then afterId else before)];
      if k < |doc.owners| {
        cursor := doc.owners[k].end;
        before := afterId;
      }
    }
    r := Ok(gaps);
  }

  predicate InGap(doc: Document, k: nat, p: nat)
    requires k <= |doc.owners|
  {
    GapRange(doc, k).start <= p < GapRange(doc, k).end
  }

  predicate InOwner(doc: Document, k: nat, p: nat)
    requires k < |doc.owners|
  {
    doc.owners[k].start <= p < doc.owners[k].end
  }

  /** The slot of a byte: the first owner that ends behind it, or the suffix. */
  function SlotOf(doc: Document, p: nat, k: nat): (slot: nat)
    requires k <= |doc.owners|
    ensures k <= slot <= |doc.owners|
    ensures slot < |doc.owners| ==> p < doc.owners[slot].end
    ensures forall j :: k <= j < slot ==> doc.owners[j].end <= p
    decreases |doc.owners| - k
  {
    if k == |doc.owners| || p < doc.owners[k].end then k else SlotOf(doc, p, k + 1)
  }

  lemma {:induction false} OwnersAscend(doc: Document, j: nat, k: nat)
    requires ValidDocument(doc) && j < k < |doc.owners|
    ensures doc.owners[j].end <= doc.owners[k].start < doc.owners[k].end
  {
    hide IsCharBoundary, IdentityFits;
    assert OwnerFits(doc, k);
    if j + 1 < k {
      OwnersAscend(doc, j, k - 1);
      assert OwnerFits(doc, k - 1);
    }
  }

  /** Every byte of a valid document is in exactly one owner or exactly one gap, never in both. */
  lemma EveryByteHasOnePlace(doc: Document, p: nat)
    requires ValidDocument(doc) && p < |doc.source|
    ensures var slot := SlotOf(doc, p, 0);
            && (forall k :: 0 <= k < |doc.owners| ==>
                  (InOwner(doc, k, p) <==> k == slot && doc.owners[k].start <= p))
            && (forall k :: 0 <= k <= |doc.owners| ==>
                  (InGap(doc, k, p) <==> k == slot && (k < |doc.owners| ==> p < doc.owners[k].start)))
  {
    hide IsCharBoundary, IdentityFits, LinesFit;
    var slot := SlotOf(doc, p, 0);
    forall k | 0 <= k <= |doc.owners|
      ensures k > slot ==> p < PriorEnd(doc, k) <= NextStart(doc, k)
      ensures k < slot ==> NextStart(doc, k) < doc.owners[k].end <= p
    {
      GapIsRange(doc, k);
      if k > slot {
        LaterSlots(doc, slot, k);
      } else if k < slot {
        assert OwnerFits(doc, k);
      }
    }
  }

  lemma LaterSlots(doc: Document, slot: nat, k: nat)
    requires ValidDocument(doc) && slot < k <= |doc.owners|
    ensures doc.owners[slot].end <= PriorEnd(doc, k)
  {
    hide ValidDocument;
    if slot < k - 1 {
      OwnersAscend(doc, slot, k - 1);
    }
  }

  /** A gap has a controller just when there is an owner, and the controller touches the gap. */
  lemma ControllerTouchesGap(doc: Document, k: nat, sha: Digest)
    requires ValidDocument(doc) && k <= |doc.owners|
    ensures SlotAt(doc, k, sha).controllerOwnerId.Some? <==> doc.owners != []
    ensures doc.owners != [] ==>
              exists owner :: owner in doc.owners && Some(owner.id) == SlotAt(doc, k, sha).controllerOwnerId
                && (owner.start == SlotAt(doc, k, sha).range.end || owner.end == SlotAt(doc, k, sha).range.start)
  {
    if k < |doc.owners| {
      assert doc.owners[k] in doc.owners;
    } else if k > 0 {
      assert doc.owners[k - 1] in doc.owners;
    }
  }

  lemma EdgesAreOnce(doc: Document, j: nat, k: nat)
    requires ValidDocument(doc) && j < |doc.owners| && k < |doc.owners|
    requires doc.owners[j].start == doc.owners[k].start || doc.owners[j].end == doc.owners[k].end
    ensures j == k
  {
    hide IsCharBoundary, IdentityFits;
    assert OwnerFits(doc, j) && OwnerFits(doc, k);
    hide ValidDocument;
    if j < k {
      OwnersAscend(doc, j, k);
    } else if k < j {
      OwnersAscend(doc, k, j);
    }
  }

  /** Who a gap names: the owner that starts where it ends controls it, else the one that ends where it starts. */
  lemma NeighboursAreExact(doc: Document, k: nat, sha: Digest)
    requires ValidDocument(doc) && k <= |doc.owners|
    ensures var slot := SlotAt(doc, k, sha);
            && (forall o :: o in doc.owners && o.end == slot.range.start ==> slot.beforeOwnerId == Some(o.id))
            && (forall o :: o in doc.owners && o.start == slot.range.end ==>
                  slot.afterOwnerId == Some(o.id) && slot.controllerOwnerId == Some(o.id))
            && ((forall o :: o in doc.owners ==> o.end != slot.range.start) ==> slot.beforeOwnerId == None)
            && ((forall o :: o in doc.owners ==> o.start != slot.range.end) ==>
                  slot.afterOwnerId == None && slot.controllerOwnerId == slot.beforeOwnerId)
  {
    var slot := SlotAt(doc, k, sha);
    forall o | o in doc.owners && o.end == slot.range.start ensures slot.beforeOwnerId == Some(o.id) {
      var j :| 0 <= j < |doc.owners| && doc.owners[j] == o;
      assert OwnerFits(doc, j);
      EdgesAreOnce(doc, j, k - 1);
    }
    forall o | o in doc.owners && o.start == slot.range.end ensures slot.afterOwnerId == Some(o.id) {
      var j :| 0 <= j < |doc.owners| && doc.owners[j] == o;
      assert OwnerFits(doc, j);
      EdgesAreOnce(doc, j, k);
    }
    assert k < |doc.owners| ==> doc.owners[k] in doc.owners;
    assert k > 0 ==> doc.owners[k - 1] in doc.owners;
  }
}
