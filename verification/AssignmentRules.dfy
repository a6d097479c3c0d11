/** Which line facts a comment region and a gap are turned into, said of the augmenters' output. */
module AssignmentRules {
  import opened Wrappers
  import opened Sequences
  import opened Text
  import D = LineDispositions
  import L = LayoutGaps
  import P = LayoutGapProperties
  import C = Comments
  import opened LineAssignments

  /** Some attachment of that owner names the region for that side. */
  ghost predicate Names(a: C.Augmentation, id: string, ownerId: string, kind: string) {
    exists p: nat :: p < |a.attachments| && NamesAt(a.attachments[p], id, ownerId, kind)
  }

  predicate NamesAt(at: C.Attachment, id: string, ownerId: string, kind: string) {
    && at.ownerId == ownerId
    && (|| (kind == "leading" && at.leadingRegionId == Some(id))
        || (kind == "inline" && at.inlineRegionId == Some(id))
        || (kind == "trailing" && at.trailingRegionId == Some(id)))
  }

  /** The first owner in the list whose lines hold the whole stretch. */
  predicate FirstHolding(owners: seq<LineOwner>, first: nat, last: nat, k: nat) {
    && k < |owners| && owners[k].startLine <= first && last <= owners[k].endLine
    && forall j :: 0 <= j < k ==> !(owners[j].startLine <= first && last <= owners[j].endLine)
  }

  /** The region's first and last lines. */
  predicate Spans(nodes: seq<C.CommentLine>, first: nat, last: nat) {
    && (forall node :: node in nodes ==> first <= node.lineNumber <= last)
    && (exists node :: node in nodes && node.lineNumber == first)
    && (exists node :: node in nodes && node.lineNumber == last)
  }

  lemma FoundIsUnique(places: seq<Place>, place: Place)
    requires Distinct(Ids(places)) && place in places
    ensures Find(places, PlaceHas(place.regionId)) == Some(place)
  {
    hide Find;
    var i :| 0 <= i < |places| && places[i] == place;
    assert PlaceHas(place.regionId)(places[i]);
    var found := Find(places, PlaceHas(place.regionId));
    var j :| 0 <= j < |places| && places[j] == found.value;
    assert Ids(places)[i] == Ids(places)[j];
  }

  lemma PlaceIsUnique(a: C.Augmentation, place: Place)
    requires AssignedOnce(a) && place in Attached(a.attachments, |a.attachments|) + Roots(a)
    ensures PlaceFor(a, place.regionId) == Some(place)
  {
    hide Attached, Roots, Find, Distinct, Ids, RegionIds;
    var places := Attached(a.attachments, |a.attachments|) + Roots(a);
    IdsAppend(Attached(a.attachments, |a.attachments|), Roots(a));
    DistinctPermutes(Ids(places), RegionIds(a));
    FoundIsUnique(places, place);
  }

  lemma {:induction false} NamedIsAttached(attachments: seq<C.Attachment>, n: nat, p: nat, id: string, ownerId: string,
                                           kind: string)
    requires p < n <= |attachments| && NamesAt(attachments[p], id, ownerId, kind)
    ensures Place(id, Some(ownerId), kind, "comment:" + ownerId + ":" + kind) in Attached(attachments, n)
  {
    hide PlacesOf;
    if p < n - 1 {
      NamedIsAttached(attachments, n - 1, p, id, ownerId, kind);
    } else {
      NamedIsPlace(attachments[p], id, ownerId, kind);
    }
  }

  lemma NamedIsPlace(at: C.Attachment, id: string, ownerId: string, kind: string)
    requires NamesAt(at, id, ownerId, kind)
    ensures Place(id, Some(ownerId), kind, "comment:" + ownerId + ":" + kind) in PlacesOf(at)
  {
    var place := Place(id, Some(ownerId), kind, "comment:" + ownerId + ":" + kind);
    if kind == "leading" {
      assert AtOwner(at.leadingRegionId, at.ownerId, "leading") == [place];
    } else if kind == "inline" {
      assert AtOwner(at.inlineRegionId, at.ownerId, "inline") == [place];
    } else {
      assert AtOwner(at.trailingRegionId, at.ownerId, "trailing") == [place];
    }
  }

  lemma {:induction false} FirstIsContaining(owners: seq<LineOwner>, region: D.LineRegion)
    ensures forall k: nat :: FirstHolding(owners, region.startLine, region.endLine, k) ==>
              D.Containing(owners, region) == Some(owners[k])
    ensures (forall k: nat :: !FirstHolding(owners, region.startLine, region.endLine, k)) ==>
              D.Containing(owners, region) == None
  {
    if owners != [] {
      FirstIsContaining(owners[1..], region);
      if D.Contains(owners[0], region) {
        assert FirstHolding(owners, region.startLine, region.endLine, 0);
      } else {
        forall k: nat ensures FirstHolding(owners, region.startLine, region.endLine, k) <==>
                              k > 0 && FirstHolding(owners[1..], region.startLine, region.endLine, k - 1)
        {
          HoldingStep(owners, region.startLine, region.endLine, k);
        }
        if forall k: nat :: !FirstHolding(owners, region.startLine, region.endLine, k) {
          forall j: nat ensures !FirstHolding(owners[1..], region.startLine, region.endLine, j) {
            assert !FirstHolding(owners, region.startLine, region.endLine, j + 1);
          }
        }
      }
    }
  }

  lemma HoldingStep(owners: seq<LineOwner>, first: nat, last: nat, k: nat)
    requires owners != [] && !(owners[0].startLine <= first && last <= owners[0].endLine)
    ensures FirstHolding(owners, first, last, k) <==> k > 0 && FirstHolding(owners[1..], first, last, k - 1)
  {
    if k > 0 && FirstHolding(owners[1..], first, last, k - 1) {
      assert forall j :: 1 <= j < k ==> owners[j] == owners[1..][j - 1];
    }
  }

  /**
   * The line fact of a region. It spans the region's nodes; a region that an attachment names keeps that
   * side and belongs to the first owner around it, else to the attachment's owner; a region of the
   * document belongs to nobody and keeps its place in the document.
   */
  lemma RegionFactIsExact(a: C.Augmentation, owners: seq<LineOwner>, k: nat)
    requires AssignedOnce(a) && AllHaveLines(a) && k < |a.regions|
    ensures var fact, id := RegionFacts(a, owners)[k], a.regions[k].id;
            && fact.id == id && Spans(a.regions[k].nodes, fact.startLine, fact.endLine)
            && (forall ownerId, kind :: Names(a, id, ownerId, kind) ==>
                  && fact.kind == kind
                  && (forall h: nat :: FirstHolding(owners, fact.startLine, fact.endLine, h) ==>
                        fact.ownerId == Some(owners[h].id)
                        && fact.selectionKey == "comment:" + owners[h].id + ":" + kind)
                  && ((forall h: nat :: !FirstHolding(owners, fact.startLine, fact.endLine, h)) ==>
                        fact.ownerId == Some(ownerId) && fact.selectionKey == "comment:" + ownerId + ":" + kind))
            && (a.preambleRegionId == Some(id) ==>
                  fact.ownerId == None && fact.kind == "preamble" && fact.selectionKey == "root:preamble")
            && (a.postludeRegionId == Some(id) ==>
                  fact.ownerId == None && fact.kind == "postlude" && fact.selectionKey == "root:postlude")
            && forall i :: 0 <= i < |a.orphanRegionIds| && a.orphanRegionIds[i] == id ==>
                 fact.ownerId == None && fact.kind == "orphan" && fact.selectionKey == "root:orphan:" + Decimal(i)
  {
    hide AssignedOnce, PlaceFor, Attached, FirstLine, LastLine, D.Containing, Decimal, FirstHolding;
    EveryRegionHasPlace(a, k);
    var id, nodes := a.regions[k].id, a.regions[k].nodes;
    var place := PlaceFor(a, id).value;
    var region := LineRegionAt(a.regions[k], place);
    FirstIsContaining(owners, region);
    assert RegionFacts(a, owners)[k] == Normalised(owners, region);
    assert Spans(nodes, FirstLine(nodes), LastLine(nodes));
    forall ownerId, kind | Names(a, id, ownerId, kind)
      ensures place == Place(id, Some(ownerId), kind, "comment:" + ownerId + ":" + kind)
    {
      var p: nat :| p < |a.attachments| && NamesAt(a.attachments[p], id, ownerId, kind);
      NamedIsAttached(a.attachments, |a.attachments|, p, id, ownerId, kind);
      PlaceIsUnique(a, Place(id, Some(ownerId), kind, "comment:" + ownerId + ":" + kind));
    }
    assert "root:" + "preamble" == "root:preamble" && "root:" + "postlude" == "root:postlude";
    if a.preambleRegionId == Some(id) {
      assert AtRoot(a.preambleRegionId, "preamble") == [Place(id, None, "preamble", "root:preamble")];
      PlaceIsUnique(a, Place(id, None, "preamble", "root:preamble"));
    }
    if a.postludeRegionId == Some(id) {
      assert AtRoot(a.postludeRegionId, "postlude") == [Place(id, None, "postlude", "root:postlude")];
      PlaceIsUnique(a, Place(id, None, "postlude", "root:postlude"));
    }
    forall i | 0 <= i < |a.orphanRegionIds| && a.orphanRegionIds[i] == id ensures place == OrphanPlace(id, i) {
      assert Orphans(a.orphanRegionIds)[i] == OrphanPlace(id, i);
      PlaceIsUnique(a, OrphanPlace(id, i));
    }
  }

  /** The line fact of a gap: its lines, kind and edges, a key made of them, and the owner on its controlling side. */
  lemma GapFactIsExact(gap: L.Gap)
    ensures var fact, before, after := P.AsLineGap(gap), gap.beforeOwnerId, gap.afterOwnerId;
            && fact.id == gap.id && fact.kind == gap.kind
            && fact.startLine == gap.startLine && fact.endLine == gap.endLine
            && fact.beforeOwnerId == before && fact.afterOwnerId == after
            && fact.controllerSide == gap.controllerSide
            && (gap.controllerSide == "before" ==> fact.controllerOwnerId == before)
            && (gap.controllerSide == "after" ==> fact.controllerOwnerId == after)
            && fact.selectionKey == "gap:" + gap.kind
                                    + ":" + (if before.Some? then before.value else "root")
                                    + ":" + (if after.Some? then after.value else "root")
  {
    assert "after"[0] != "before"[0];
  }
}
