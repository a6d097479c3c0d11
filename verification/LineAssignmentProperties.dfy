/** The comment augmenter gives every region exactly one place, as long as no two regions share an id. */
module LineAssignmentProperties {
  import opened Wrappers
  import opened Sequences
  import opened Sorting
  import L = LayoutGaps
  import C = Comments
  import opened LineAssignments

  /** The region ids of some claims, in order. */
  function ClaimIds(page: C.Page, claims: seq<C.Claim>): seq<string> {
    seq(|claims|, i requires 0 <= i < |claims| => C.ClaimId(page, claims[i]))
  }

  lemma ClaimIdsAppend(page: C.Page, a: seq<C.Claim>, b: seq<C.Claim>)
    ensures ClaimIds(page, a + b) == ClaimIds(page, a) + ClaimIds(page, b)
  {}

  lemma IdsOfClaim(page: C.Page, kind: C.RegionKind, ownerId: string, indices: seq<nat>, floating: bool)
    ensures ClaimIds(page, C.ClaimIf(page, kind, ownerId, indices, floating)) == C.AsIds(C.IdIf(page, kind, indices))
  {
    hide C.RegionId;
    assert |Sort(C.LineOrder(page), indices)| == |indices|;
  }

  lemma IdsAtOwner(regionId: Option<string>, ownerId: string, kind: string)
    ensures Ids(AtOwner(regionId, ownerId, kind)) == C.AsIds(regionId)
  {}

  /** An owner's attachment names exactly the regions of its round. */
  lemma RoundIsAttached(page: C.Page, owners: seq<LineOwner>, i: nat, claimed: set<nat>, layout: seq<L.Attachment>)
    requires i < |owners|
    ensures Ids(PlacesOf(C.AttachmentFor(page, owners, i, claimed, layout)))
         == ClaimIds(page, C.OwnerRound(page, owners, i, claimed))
  {
    hide C.ClaimIf, C.IdIf, ClaimIds, Ids, AtOwner, C.Page.Leading, C.Page.Inline, C.Page.Trailing, C.Floats,
      C.NextOwner;
    var owner := owners[i];
    var leading, inline := page.Leading(claimed, owner), page.Inline(claimed, owner);
    var trailing := page.Trailing(claimed, owner, C.NextOwner(owners, i));
    var floating := C.Floats(page, leading, owner);
    var first := C.ClaimIf(page, C.Leading, owner.id, leading, floating);
    var second := C.ClaimIf(page, C.Inline, owner.id, inline, false);
    var third := C.ClaimIf(page, C.Trailing, owner.id, trailing, false);
    IdsOfClaim(page, C.Leading, owner.id, leading, floating);
    IdsOfClaim(page, C.Inline, owner.id, inline, false);
    IdsOfClaim(page, C.Trailing, owner.id, trailing, false);
    ClaimIdsAppend(page, first, second);
    ClaimIdsAppend(page, first + second, third);
    var a := AtOwner(C.IdIf(page, C.Leading, leading), owner.id, "leading");
    var b := AtOwner(C.IdIf(page, C.Inline, inline), owner.id, "inline");
    var c := AtOwner(C.IdIf(page, C.Trailing, trailing), owner.id, "trailing");
    IdsAtOwner(C.IdIf(page, C.Leading, leading), owner.id, "leading");
    IdsAtOwner(C.IdIf(page, C.Inline, inline), owner.id, "inline");
    IdsAtOwner(C.IdIf(page, C.Trailing, trailing), owner.id, "trailing");
    IdsAppend(a, b);
    IdsAppend(a + b, c);
  }

  lemma {:induction false} OwnersAreAttached(page: C.Page, owners: seq<LineOwner>, attachments: seq<C.Attachment>,
                                             layout: seq<L.Attachment>, n: nat)
    requires n <= |owners| == |attachments|
    requires forall i :: 0 <= i < |owners| ==> attachments[i] == C.AttachmentAt(page, owners, i, layout)
    ensures Ids(Attached(attachments, n)) == ClaimIds(page, C.OwnerClaims(page, owners, n))
  {
    hide C.AttachmentFor, C.OwnerRound, PlacesOf, ClaimIds, C.Claimed;
    if n == 0 {
      NoClaimIds(page);
    } else {
      OwnersAreAttached(page, owners, attachments, layout, n - 1);
      var before := C.OwnerClaims(page, owners, n - 1);
      RoundIsAttached(page, owners, n - 1, C.Claimed(before), layout);
      ClaimIdsAppend(page, before, C.OwnerRound(page, owners, n - 1, C.Claimed(before)));
      IdsAppend(Attached(attachments, n - 1), PlacesOf(attachments[n - 1]));
    }
  }

  lemma NoClaimIds(page: C.Page)
    ensures ClaimIds(page, []) == []
  {}

  predicate OnlyDocumentKinds(claims: seq<C.Claim>) {
    forall i :: 0 <= i < |claims| ==> claims[i].kind == C.Preamble || claims[i].kind == C.Orphan
  }

  lemma IdsOfLonger(page: C.Page, claims: seq<C.Claim>, last: C.Claim, kind: C.RegionKind)
    ensures C.IdsOfKind(page, claims + [last], kind) ==
            C.IdsOfKind(page, claims, kind) + if last.kind == kind then [C.ClaimId(page, last)] else []
  {
    hide C.ClaimId;
    assert (claims + [last])[..|claims|] == claims;
  }

  lemma NoIdsOfKind(page: C.Page, kind: C.RegionKind)
    ensures C.IdsOfKind(page, [], kind) == []
  {}

  lemma OneClaimId(page: C.Page, claims: seq<C.Claim>, last: C.Claim)
    ensures ClaimIds(page, claims + [last]) == ClaimIds(page, claims) + [C.ClaimId(page, last)]
  {
    hide C.ClaimId;
    ClaimIdsAppend(page, claims, [last]);
    assert ClaimIds(page, [last]) == [C.ClaimId(page, last)];
  }

  /** Preambles and orphans together are all the claims of the remaining groups. */
  lemma {:induction false} KindsPartition(page: C.Page, claims: seq<C.Claim>)
    requires OnlyDocumentKinds(claims)
    ensures multiset(ClaimIds(page, claims)) ==
            multiset(C.IdsOfKind(page, claims, C.Preamble)) + multiset(C.IdsOfKind(page, claims, C.Orphan))
  {
    hide C.ClaimId, C.IdsOfKind, ClaimIds;
    if claims == [] {
      NoClaimIds(page);
      NoIdsOfKind(page, C.Preamble);
      NoIdsOfKind(page, C.Orphan);
    } else {
      var n := |claims| - 1;
      var last := claims[n];
      KindsPartition(page, claims[..n]);
      assert claims == claims[..n] + [last];
      OneClaimId(page, claims[..n], last);
      IdsOfLonger(page, claims[..n], last, C.Preamble);
      IdsOfLonger(page, claims[..n], last, C.Orphan);
    }
  }

  lemma {:induction false} RestHasDocumentKinds(page: C.Page, owners: seq<LineOwner>, groups: seq<seq<nat>>, n: nat)
    requires n <= |groups| && forall g :: 0 <= g < |groups| ==> groups[g] != []
    ensures OnlyDocumentKinds(C.RestClaims(page, owners, groups, n))
  {
    hide C.GroupClaims, C.HasKind;
    if n > 0 {
      var before := C.RestClaims(page, owners, groups, n - 1);
      RestHasDocumentKinds(page, owners, groups, n - 1);
      GroupHasDocumentKinds(page, owners, groups[n - 1], C.HasKind(before, C.Preamble));
      JoinKinds(before, C.GroupClaims(page, owners, groups[n - 1], C.HasKind(before, C.Preamble)));
    }
  }

  lemma GroupHasDocumentKinds(page: C.Page, owners: seq<LineOwner>, group: seq<nat>, hasPreamble: bool)
    requires group != []
    ensures OnlyDocumentKinds(C.GroupClaims(page, owners, group, hasPreamble))
  {
    hide C.SplitLine, C.BeforeOwners, C.DocumentClaim, OnlyDocumentKinds, Filter, C.IsAbove, C.NotAbove;
    ClaimHasKind(page, C.Orphan, group);
    ClaimHasKind(page, C.Preamble, group);
    var split := C.SplitLine(page, owners, group);
    if split.Some? {
      var head, tail := Filter(group, C.IsAbove(page, split.value)), Filter(group, C.NotAbove(page, split.value));
      ClaimHasKind(page, C.Preamble, head);
      ClaimHasKind(page, C.Orphan, tail);
      JoinKinds(C.DocumentClaim(page, C.Preamble, head), C.DocumentClaim(page, C.Orphan, tail));
    }
  }

  lemma ClaimHasKind(page: C.Page, kind: C.RegionKind, indices: seq<nat>)
    requires kind == C.Preamble || kind == C.Orphan
    ensures OnlyDocumentKinds(C.DocumentClaim(page, kind, indices))
  {}

  lemma JoinKinds(a: seq<C.Claim>, b: seq<C.Claim>)
    requires OnlyDocumentKinds(a) && OnlyDocumentKinds(b)
    ensures OnlyDocumentKinds(a + b)
  {}

  lemma PostludeIds(page: C.Page, owners: seq<LineOwner>)
    ensures ClaimIds(page, C.PostludeClaims(page, owners)) ==
            C.IdsOfKind(page, C.PostludeClaims(page, owners), C.Postlude)
  {
    var claimed := C.Claimed(C.OwnerClaims(page, owners, |owners|));
    var postlude := Select(|page.comments|, page.IsPostlude(claimed, owners));
    hide C.OwnerClaims, C.Claimed, C.IdIf, C.ClaimIf, C.IdsOfKind, ClaimIds;
    C.IdsOfOne(page, C.Postlude, postlude, C.Postlude);
    IdsOfClaim(page, C.Postlude, C.DocumentOwner(C.Postlude), postlude, false);
  }

  lemma RegionIdsAreClaimIds(page: C.Page, style: string, claims: seq<C.Claim>, a: C.Augmentation,
                             observed: seq<C.Observation>)
    requires C.Reported(page, style, claims, a.regions, observed)
    ensures RegionIds(a) == ClaimIds(page, claims) && AllHaveLines(a)
  {
    hide C.RegionId;
    forall i | 0 <= i < |claims| ensures a.regions[i].id == C.ClaimId(page, claims[i]) && a.regions[i].nodes != [] {
      assert C.ClaimFits(page, claims[i]) && a.regions[i] == C.RegionOf(page, style, claims[i]);
    }
  }

  lemma RootIds(a: C.Augmentation)
    ensures Ids(Roots(a)) == C.AsIds(a.preambleRegionId) + C.AsIds(a.postludeRegionId) + a.orphanRegionIds
  {
    IdsAppend(AtRoot(a.preambleRegionId, "preamble"), AtRoot(a.postludeRegionId, "postlude"));
    IdsAppend(AtRoot(a.preambleRegionId, "preamble") + AtRoot(a.postludeRegionId, "postlude"),
              Orphans(a.orphanRegionIds));
    assert Ids(Orphans(a.orphanRegionIds)) == a.orphanRegionIds;
  }

  lemma Regroup(owned: seq<string>, preamble: seq<string>, postlude: seq<string>, orphans: seq<string>,
                rest: seq<string>)
    requires multiset(rest) == multiset(preamble) + multiset(orphans)
    ensures multiset(owned + (preamble + postlude + orphans)) == multiset(owned + postlude + rest)
  {}

  /**
   * Whatever the comment augmenter returns passes the assignment checks of the line dispositions
   * exactly when no two of its regions share an id, and all its regions have lines.
   */
  lemma AugmentedRegionsAreAssigned(page: C.Page, owners: seq<LineOwner>, style: string, a: C.Augmentation,
                                    observed: seq<C.Observation>)
    requires C.Augmented(page, owners, style, a, observed)
    ensures AssignedOnce(a) <==> Distinct(RegionIds(a))
    ensures AllHaveLines(a)
  {
    hide C.Reported, L.GapsOf, C.OwnerClaims, C.PostludeClaims, C.RestClaims, C.RemainingGroups, C.IdsOfKind,
      C.AttachmentAt, Distinct, Attached, Roots, Ids, ClaimIds, AllHaveLines, RegionIds, C.LayoutAttachments;
    var owned, postlude := C.OwnerClaims(page, owners, |owners|), C.PostludeClaims(page, owners);
    var groups := C.RemainingGroups(page, owners);
    C.GroupsAreNotEmpty(page, owners);
    var rest := C.RestClaims(page, owners, groups, |groups|);
    RegionIdsAreClaimIds(page, style, C.AllClaims(page, owners), a, observed);
    OwnersAreAttached(page, owners, a.attachments, C.LayoutAttachments(owners, a.gaps), |owners|);
    PostludeIds(page, owners);
    RestHasDocumentKinds(page, owners, groups, |groups|);
    KindsPartition(page, rest);
    RootIds(a);
    ClaimIdsAppend(page, owned, postlude);
    ClaimIdsAppend(page, owned + postlude, rest);
    Regroup(ClaimIds(page, owned), C.IdsOfKind(page, rest, C.Preamble), ClaimIds(page, postlude),
            C.IdsOfKind(page, rest, C.Orphan), ClaimIds(page, rest));
  }
}
