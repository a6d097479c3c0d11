/** Which comments each region of an augmentation holds, said of lines, comments and the other regions. */
module CommentRegions {
  import opened Sequences
  import opened Sorting
  import P = LayoutGapProperties
  import opened Comments
  import opened CommentProperties
  import opened CommentRules

  // ----- regions of owners

  /** Some region of that kind and owner holds the comment. */
  predicate Holds(claims: seq<Claim>, kind: RegionKind, ownerId: string, k: nat) {
    exists c :: c in claims && c.kind == kind && c.ownerId == ownerId && k in c.indices
  }

  predicate OfOwner(kind: RegionKind) {
    kind == Leading || kind == Inline || kind == Trailing
  }

  /** A region of one of the first `n` owners holds the comment. */
  ghost predicate TakenBy(claims: seq<Claim>, owners: seq<LineOwner>, n: nat, k: nat) {
    exists q, kind :: 0 <= q < n && q < |owners| && OfOwner(kind) && Holds(claims, kind, owners[q].id, k)
  }

  /** The comments that the first `n` owners hold. */
  ghost function TakenSet(page: Page, claims: seq<Claim>, owners: seq<LineOwner>, n: nat): set<nat> {
    set k: nat | k < |page.comments| && TakenBy(claims, owners, n, k)
  }

  lemma ClaimIfHolds(page: Page, kind: RegionKind, ownerId: string, indices: seq<nat>, floating: bool)
    ensures forall other, id, k :: Holds(ClaimIf(page, kind, ownerId, indices, floating), other, id, k) <==>
              other == kind && id == ownerId && k in indices
  {
    SortKeepsMembers(LineOrder(page), indices);
    var claims := ClaimIf(page, kind, ownerId, indices, floating);
    forall other, id, k
      ensures Holds(claims, other, id, k) <==> other == kind && id == ownerId && k in indices
    {
      if k in indices {
        assert claims[0] in claims && k in claims[0].indices;
      }
    }
  }

  lemma HoldsEither(a: seq<Claim>, b: seq<Claim>)
    ensures forall kind, id, k :: Holds(a + b, kind, id, k) <==> Holds(a, kind, id, k) || Holds(b, kind, id, k)
  {}

  /** What the round of one owner holds. */
  predicate RoundHolds(page: Page, owners: seq<LineOwner>, p: nat, claimed: set<nat>, kind: RegionKind, k: nat)
    requires p < |owners|
  {
    match kind
    case Leading => k in page.Leading(claimed, owners[p])
    case Inline => k in page.Inline(claimed, owners[p])
    case Trailing => k in page.Trailing(claimed, owners[p], NextOwner(owners, p))
    case _ => false
  }

  lemma RoundIsExact(page: Page, owners: seq<LineOwner>, p: nat, claimed: set<nat>)
    requires p < |owners|
    ensures forall kind, id, k :: Holds(OwnerRound(page, owners, p, claimed), kind, id, k) <==>
              id == owners[p].id && RoundHolds(page, owners, p, claimed, kind, k)
  {
    hide Holds, ClaimIf, Floats, Page.Leading, Page.Inline, Page.Trailing, NextOwner;
    var owner := owners[p];
    var leading := page.Leading(claimed, owner);
    var a := ClaimIf(page, Leading, owner.id, leading, Floats(page, leading, owner));
    var b := ClaimIf(page, Inline, owner.id, page.Inline(claimed, owner), false);
    var c := ClaimIf(page, Trailing, owner.id, page.Trailing(claimed, owner, NextOwner(owners, p)), false);
    ClaimIfHolds(page, Leading, owner.id, leading, Floats(page, leading, owner));
    ClaimIfHolds(page, Inline, owner.id, page.Inline(claimed, owner), false);
    ClaimIfHolds(page, Trailing, owner.id, page.Trailing(claimed, owner, NextOwner(owners, p)), false);
    HoldsEither(a, b);
    HoldsEither(a + b, c);
  }

  /** The claims before the round of owner `p`. */
  function Before(page: Page, owners: seq<LineOwner>, p: nat): set<nat>
    requires p <= |owners|
  {
    Claimed(OwnerClaims(page, owners, p))
  }

  /** Owner claims are those of the owners' rounds. */
  lemma {:induction false} RoundsAreExact(page: Page, owners: seq<LineOwner>, n: nat)
    requires n <= |owners|
    ensures forall kind, id, k :: Holds(OwnerClaims(page, owners, n), kind, id, k) <==>
              exists q :: 0 <= q < n && id == owners[q].id
                && RoundHolds(page, owners, q, Before(page, owners, q), kind, k)
  {
    hide Holds, RoundHolds, OwnerRound, Claimed;
    if n == 0 {
      NothingHolds();
    } else {
      var before := OwnerClaims(page, owners, n - 1);
      RoundsAreExact(page, owners, n - 1);
      RoundIsExact(page, owners, n - 1, Claimed(before));
      HoldsEither(before, OwnerRound(page, owners, n - 1, Claimed(before)));
    }
  }

  lemma NothingHolds()
    ensures forall kind, id, k :: !Holds([], kind, id, k)
  {}

  lemma GroupHoldsDocument(page: Page, owners: seq<LineOwner>, group: seq<nat>, hasPreamble: bool)
    requires group != []
    ensures forall kind, id, k :: Holds(GroupClaims(page, owners, group, hasPreamble), kind, id, k) ==>
              kind == Preamble || kind == Orphan
  {
    hide ClaimIf, SplitLine, BeforeOwners, Holds, IsAbove, NotAbove, Filter;
    ClaimIfHolds(page, Orphan, DocumentOwner(Orphan), group, false);
    ClaimIfHolds(page, Preamble, DocumentOwner(Preamble), group, false);
    var split := SplitLine(page, owners, group);
    if split.Some? {
      var head, tail := Filter(group, IsAbove(page, split.value)), Filter(group, NotAbove(page, split.value));
      ClaimIfHolds(page, Preamble, DocumentOwner(Preamble), head, false);
      ClaimIfHolds(page, Orphan, DocumentOwner(Orphan), tail, false);
      HoldsEither(DocumentClaim(page, Preamble, head), DocumentClaim(page, Orphan, tail));
    }
  }

  lemma {:induction false} RestHoldsDocument(page: Page, owners: seq<LineOwner>, groups: seq<seq<nat>>, n: nat)
    requires n <= |groups| && forall g :: 0 <= g < |groups| ==> groups[g] != []
    ensures forall kind, id, k :: Holds(RestClaims(page, owners, groups, n), kind, id, k) ==>
              kind == Preamble || kind == Orphan
  {
    hide Holds, GroupClaims, HasKind;
    if n == 0 {
      NothingHolds();
    } else {
      var before := RestClaims(page, owners, groups, n - 1);
      RestHoldsDocument(page, owners, groups, n - 1);
      GroupHoldsDocument(page, owners, groups[n - 1], HasKind(before, Preamble));
      HoldsEither(before, GroupClaims(page, owners, groups[n - 1], HasKind(before, Preamble)));
    }
  }

  lemma PostludeHolds(page: Page, owners: seq<LineOwner>)
    ensures forall kind, id, k: nat :: Holds(PostludeClaims(page, owners), kind, id, k) <==>
              && kind == Postlude && id == DocumentOwner(Postlude)
              && page.IsPostlude(Before(page, owners, |owners|), owners)(k)
  {
    hide ClaimIf, Holds, OwnerClaims, Claimed, DocumentOwner;
    var claimed := Before(page, owners, |owners|);
    PostludeIsInPage(page, owners, claimed);
    ClaimIfHolds(page, Postlude, DocumentOwner(Postlude), Select(|page.comments|, page.IsPostlude(claimed, owners)),
                 false);
  }

  lemma PostludeIsInPage(page: Page, owners: seq<LineOwner>, claimed: set<nat>)
    ensures forall k: nat :: page.IsPostlude(claimed, owners)(k) ==> k < |page.comments|
  {}

  /** Regions of owners' kinds are those of the owners' rounds. */
  lemma OwnerKindsAreRounds(page: Page, owners: seq<LineOwner>)
    ensures forall kind, id, k :: OfOwner(kind) ==>
              (Holds(AllClaims(page, owners), kind, id, k) <==>
               Holds(OwnerClaims(page, owners, |owners|), kind, id, k))
  {
    hide Holds, OwnerClaims, PostludeClaims, RestClaims, RemainingGroups;
    var groups := RemainingGroups(page, owners);
    GroupsAreNotEmpty(page, owners);
    var rest := RestClaims(page, owners, groups, |groups|);
    PostludeHolds(page, owners);
    RestHoldsDocument(page, owners, groups, |groups|);
    HoldsEither(OwnerClaims(page, owners, |owners|), PostludeClaims(page, owners));
    HoldsEither(OwnerClaims(page, owners, |owners|) + PostludeClaims(page, owners), rest);
  }

  lemma SameOwnerId(owners: seq<LineOwner>, p: nat, q: nat)
    requires P.DistinctIds(owners) && p < |owners| && q < |owners| && owners[p].id == owners[q].id
    ensures p == q
  {}

  /** An owner's regions hold exactly what its round takes. */
  lemma OwnerHoldsItsRound(page: Page, owners: seq<LineOwner>, p: nat, kind: RegionKind, k: nat)
    requires P.DistinctIds(owners) && p < |owners| && OfOwner(kind)
    ensures Holds(AllClaims(page, owners), kind, owners[p].id, k) <==>
            RoundHolds(page, owners, p, Before(page, owners, p), kind, k)
  {
    hide Holds, RoundHolds, OwnerClaims, AllClaims, Claimed, P.DistinctIds;
    OwnerKindsAreRounds(page, owners);
    RoundsAreExact(page, owners, |owners|);
    forall q: nat | q < |owners| && owners[p].id == owners[q].id ensures q == p {
      SameOwnerId(owners, p, q);
    }
  }

  lemma ClaimedIsHeld(claims: seq<Claim>, k: nat)
    ensures k in Claimed(claims) <==> exists kind, id :: Holds(claims, kind, id, k)
  {
    if k in Claimed(claims) {
      var i :| 0 <= i < |claims| && k in claims[i].indices;
      assert claims[i] in claims;
      assert Holds(claims, claims[i].kind, claims[i].ownerId, k);
    }
    if kind, id :| Holds(claims, kind, id, k) {
      var c :| c in claims && c.kind == kind && c.ownerId == id && k in c.indices;
      var i :| 0 <= i < |claims| && claims[i] == c;
    }
  }

  /** What is claimed before the round of an owner is what the owners above it hold in the end. */
  lemma BeforeIsTaken(page: Page, owners: seq<LineOwner>, p: nat)
    requires P.DistinctIds(owners) && OwnersSpan(owners) && p <= |owners|
    ensures Before(page, owners, p) == TakenSet(page, AllClaims(page, owners), owners, p)
  {
    hide Holds, RoundHolds, OwnerClaims, AllClaims, Claimed, P.DistinctIds, OwnersSpan;
    RoundsAreExact(page, owners, p);
    forall k: nat
      ensures k in Before(page, owners, p) <==> TakenBy(AllClaims(page, owners), owners, p, k)
      ensures k in Before(page, owners, p) ==> k < |page.comments|
    {
      ClaimedIsHeld(OwnerClaims(page, owners, p), k);
      if kind, id :| Holds(OwnerClaims(page, owners, p), kind, id, k) {
        var q :| 0 <= q < p && id == owners[q].id && RoundHolds(page, owners, q, Before(page, owners, q), kind, k);
        RoundIsOfOwner(page, owners, q, Before(page, owners, q), kind, k);
        OwnerHoldsItsRound(page, owners, q, kind, k);
      }
      if TakenBy(AllClaims(page, owners), owners, p, k) {
        var q, kind :|
          0 <= q < p && q < |owners| && OfOwner(kind) && Holds(AllClaims(page, owners), kind, owners[q].id, k);
        OwnerHoldsItsRound(page, owners, q, kind, k);
        assert Holds(OwnerClaims(page, owners, p), kind, owners[q].id, k);
      }
      if k in Before(page, owners, p) {
        OwnerClaimsAreSound(page, owners, p);
        SoundIsInPage(page, owners, OwnerClaims(page, owners, p), k);
      }
    }
  }

  lemma RoundIsOfOwner(page: Page, owners: seq<LineOwner>, p: nat, claimed: set<nat>, kind: RegionKind, k: nat)
    requires p < |owners| && RoundHolds(page, owners, p, claimed, kind, k)
    ensures OfOwner(kind)
  {}

  lemma SoundIsInPage(page: Page, owners: seq<LineOwner>, claims: seq<Claim>, k: nat)
    requires Sound(page, owners, claims) && k in Claimed(claims)
    ensures k < |page.comments|
  {
    ClaimedHasRegion(page, owners, claims, k);
  }

  /**
   * The leading region of an owner holds exactly the first free comment of every line above the owner
   * that the search reaches, without the header; free is what no owner above holds.
   */
  lemma LeadingRegionIsExact(page: Page, owners: seq<LineOwner>, p: nat, k: nat)
    requires P.DistinctIds(owners) && OwnersSpan(owners) && p < |owners|
    ensures var claims, start := AllClaims(page, owners), owners[p].startLine;
            var taken := TakenSet(page, claims, owners, p);
            Holds(claims, Leading, owners[p].id, k) <==>
            && Free(page, taken, k) && 0 < page.comments[k].line < start
            && FirstFree(page, taken, page.comments[k].line, k)
            && Reached(page, taken, start, page.comments[k].line)
            && (HasHeader(page, taken, start) ==>
                  BlankAbove(page, page.comments[k].line))
  {
    hide Holds, AllClaims, Claimed, OwnerClaims, Page.Leading, Free, FirstFree, Reached, HasHeader, Page.Blank;
    BeforeIsTaken(page, owners, p);
    OwnerHoldsItsRound(page, owners, p, Leading, k);
    LeadingIsExact(page, Before(page, owners, p), owners[p], k);
  }

  /** A comment on the first line is in no leading region of an owner with a blank line above it. */
  lemma HeaderIsNotLeading(page: Page, owners: seq<LineOwner>, p: nat, k: nat)
    requires P.DistinctIds(owners) && OwnersSpan(owners) && p < |owners|
    requires Holds(AllClaims(page, owners), Leading, owners[p].id, k) && page.LineOf(k) == 1
    ensures forall line: nat :: 1 <= line < owners[p].startLine ==> !page.Blank(line)
  {
    hide Holds, AllClaims, Claimed, OwnerClaims, Page.Leading, Page.Blank;
    OwnerHoldsItsRound(page, owners, p, Leading, k);
    HeaderStaysOut(page, Before(page, owners, p), owners[p], k);
  }

  /** The inline region of an owner holds the owner-scoped comments behind code on the owner's lines. */
  lemma InlineRegionIsExact(page: Page, owners: seq<LineOwner>, p: nat, k: nat)
    requires P.DistinctIds(owners) && OwnersSpan(owners) && p < |owners|
    ensures var claims := AllClaims(page, owners);
            Holds(claims, Inline, owners[p].id, k) <==>
            && k < |page.comments| && k !in TakenSet(page, claims, owners, p)
            && !page.comments[k].fullLine && page.comments[k].scope == OwnerScope
            && owners[p].startLine <= page.comments[k].line <= owners[p].endLine
  {
    hide Holds, AllClaims, Claimed, OwnerClaims;
    BeforeIsTaken(page, owners, p);
    OwnerHoldsItsRound(page, owners, p, Inline, k);
  }

  /** The trailing region of an owner holds what the search below it reaches. */
  lemma TrailingRegionIsExact(page: Page, owners: seq<LineOwner>, p: nat, k: nat)
    requires P.DistinctIds(owners) && OwnersSpan(owners) && p < |owners|
    ensures var claims, end := AllClaims(page, owners), owners[p].endLine;
            Holds(claims, Trailing, owners[p].id, k) <==>
            && page.policy == PrecedingOwner && !page.Blank(end + 1)
            && ReachedDown(page, TakenSet(page, claims, owners, p), owners[p].id, end + 1, k)
            && end < page.comments[k].line
            && (if p + 1 < |owners| then page.comments[k].line < owners[p + 1].startLine
                else page.comments[k].line <= |page.lines|)
  {
    hide Holds, AllClaims, Claimed, OwnerClaims, Page.Trailing, ReachedDown, Page.Blank;
    BeforeIsTaken(page, owners, p);
    OwnerHoldsItsRound(page, owners, p, Trailing, k);
    TrailingIsExact(page, Before(page, owners, p), owners[p], NextOwner(owners, p), k);
  }

  /** The postlude holds the owner-scoped full-line comments below all owners that no owner holds. */
  lemma PostludeIsExact(page: Page, owners: seq<LineOwner>, k: nat)
    requires P.DistinctIds(owners) && OwnersSpan(owners)
    ensures var claims := AllClaims(page, owners);
            Holds(claims, Postlude, "document:postlude", k) <==>
            && k < |page.comments| && !TakenBy(claims, owners, |owners|, k)
            && page.comments[k].fullLine && page.comments[k].scope == OwnerScope
            && owners != [] && page.comments[k].line > owners[|owners| - 1].endLine
  {
    hide Holds, AllClaims, Claimed, OwnerClaims, TakenBy, PostludeClaims, RestClaims, RemainingGroups, RoundHolds;
    var claims, groups := AllClaims(page, owners), RemainingGroups(page, owners);
    PostludeKindIsPostlude(page, owners);
    PostludeHolds(page, owners);
    BeforeIsTaken(page, owners, |owners|);
    assert DocumentOwner(Postlude) == "document:postlude";
    assert k < |page.comments| ==> (k in TakenSet(page, claims, owners, |owners|) <==>
                                    TakenBy(claims, owners, |owners|, k));
  }

  lemma PostludeKindIsPostlude(page: Page, owners: seq<LineOwner>)
    ensures forall id, k :: Holds(AllClaims(page, owners), Postlude, id, k) <==>
              Holds(PostludeClaims(page, owners), Postlude, id, k)
  {
    hide Holds, OwnerClaims, PostludeClaims, RestClaims, RemainingGroups, RoundHolds;
    var groups := RemainingGroups(page, owners);
    GroupsAreNotEmpty(page, owners);
    var rest := RestClaims(page, owners, groups, |groups|);
    RestHoldsDocument(page, owners, groups, |groups|);
    RoundsAreExact(page, owners, |owners|);
    forall id, k ensures !Holds(OwnerClaims(page, owners, |owners|), Postlude, id, k) {
      forall q: nat | q < |owners| ensures !RoundHolds(page, owners, q, Before(page, owners, q), Postlude, k) {
        if RoundHolds(page, owners, q, Before(page, owners, q), Postlude, k) {
          RoundIsOfOwner(page, owners, q, Before(page, owners, q), Postlude, k);
        }
      }
    }
    HoldsEither(OwnerClaims(page, owners, |owners|), PostludeClaims(page, owners));
    HoldsEither(OwnerClaims(page, owners, |owners|) + PostludeClaims(page, owners), rest);
  }
}
