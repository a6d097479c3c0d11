/** Every tracked comment is accounted for, once, on the side its region says. */
module CommentProperties {
  import opened Wrappers
  import opened Sequences
  import opened Sorting
  import D = LineDispositions
  import opened Comments

  type LineOwner = D.LineOwner

  // ----- claims that do not meet

  predicate Meets(a: seq<nat>, b: seq<nat>) {
    exists k :: k in a && k in b
  }

  /** No comment is in two regions, nor twice in one. */
  predicate OneRegionEach(claims: seq<Claim>) {
    && (forall i :: 0 <= i < |claims| ==> Distinct(claims[i].indices))
    && (forall i, j :: 0 <= i < j < |claims| ==> !Meets(claims[i].indices, claims[j].indices))
  }

  lemma JoinClaims(a: seq<Claim>, b: seq<Claim>)
    requires OneRegionEach(a) && OneRegionEach(b) && Claimed(a) !! Claimed(b)
    ensures OneRegionEach(a + b)
  {
    hide Distinct;
    forall i, j | 0 <= i < j < |a + b| ensures !Meets((a + b)[i].indices, (a + b)[j].indices) {
      if i < |a| <= j {
        forall k | k in a[i].indices ensures k !in b[j - |a|].indices {
          assert k in Claimed(a);
          assert k in b[j - |a|].indices ==> k in Claimed(b);
        }
      }
    }
  }

  lemma OneClaim(page: Page, kind: RegionKind, ownerId: string, indices: seq<nat>, floating: bool)
    requires Distinct(indices)
    ensures OneRegionEach(ClaimIf(page, kind, ownerId, indices, floating))
  {
    DistinctPermutes(indices, Sort(LineOrder(page), indices));
  }

  // ----- what the searches take

  predicate TakenFrom(page: Page, claimed: set<nat>, from: nat, end: nat, indices: seq<nat>) {
    && (forall i :: 0 <= i < |indices| ==>
          page.Available(claimed, page.LineOf(indices[i]), indices[i]) && from <= page.LineOf(indices[i]) < end)
    && (forall i, j :: 0 <= i < j < |indices| ==> page.LineOf(indices[i]) < page.LineOf(indices[j]))
  }

  lemma TakenAreDistinct(page: Page, claimed: set<nat>, from: nat, end: nat, indices: seq<nat>)
    requires TakenFrom(page, claimed, from, end, indices)
    ensures Distinct(indices)
  {}

  lemma {:induction false} TakenAreAvailable(page: Page, claimed: set<nat>, from: nat, end: nat)
    ensures TakenFrom(page, claimed, from, end, page.Taken(claimed, from, end))
    decreases if from < end then end - from else 0
  {
    if from < end {
      TakenAreAvailable(page, claimed, from + 1, end);
    }
  }

  lemma {:induction false} FilterTaken(page: Page, claimed: set<nat>, from: nat, end: nat, indices: seq<nat>,
                                       keep: nat -> bool)
    requires TakenFrom(page, claimed, from, end, indices)
    ensures TakenFrom(page, claimed, from, end, Filter(indices, keep))
    decreases |indices|
  {
    hide Page.Available, Page.LineOf;
    if indices != [] {
      FilterTaken(page, claimed, from, end, indices[1..], keep);
      FilterMembers(indices[1..], keep);
      var rest := Filter(indices[1..], keep);
      forall j | 0 <= j < |rest| ensures page.LineOf(indices[0]) < page.LineOf(rest[j]) {
        assert rest[j] in indices[1..];
      }
    }
  }

  lemma LeadingIsAbove(page: Page, claimed: set<nat>, owner: LineOwner)
    ensures TakenFrom(page, claimed, 1, owner.startLine, page.Leading(claimed, owner))
  {
    hide TakenFrom, Page.Taken, Page.Stop, Page.Blank, Page.FirstBlank, Filter;
    var start := owner.startLine;
    var above := if start == 0 then 0 else start - 1;
    var from := page.Stop(claimed, start, above) + 1;
    TakenAreAvailable(page, claimed, from, start);
    WidenTaken(page, claimed, from, start, page.Taken(claimed, from, start));
    if page.FirstBlank(1, start).Some? {
      FilterTaken(page, claimed, 1, start, page.Taken(claimed, from, start),
                  page.IsBelow(page.FirstBlank(1, start).value));
    }
  }

  lemma WidenTaken(page: Page, claimed: set<nat>, from: nat, end: nat, indices: seq<nat>)
    requires TakenFrom(page, claimed, from, end, indices) && from >= 1
    ensures TakenFrom(page, claimed, 1, end, indices)
  {}

  lemma {:induction false} TrailingIsBelow(page: Page, claimed: set<nat>, ownerId: string, line: nat, maxLine: nat)
    requires line <= maxLine + 1
    ensures TakenFrom(page, claimed, line, maxLine + 1, page.TrailingFrom(claimed, ownerId, line, maxLine))
    decreases maxLine + 1 - line
  {
    hide Page.Blank, Page.AllBlank, Page.IndentFits;
    if line <= maxLine {
      TrailingIsBelow(page, claimed, ownerId, page.SkipBlank(line + 1, maxLine), maxLine);
    }
  }

  // ----- nothing but blank lines and further comments in between

  /** The line is blank, or one of the comments stands on it. */
  predicate Bridged(page: Page, indices: seq<nat>, line: nat) {
    page.Blank(line) || exists k :: k in indices && page.LineOf(k) == line
  }

  lemma {:induction false} SearchPasses(page: Page, claimed: set<nat>, start: nat, from: nat, line: nat)
    requires page.Stop(claimed, start, from) < line <= from
    ensures page.CommentOn(claimed, line, 0).Some? || page.Blank(line)
  {
    hide Page.Blank, Page.Taken, Page.CommentOn, Page.PrefixAbove;
    if line < from {
      SearchPasses(page, claimed, start, from - 1, line);
    }
  }

  lemma {:induction false} TakenHasLine(page: Page, claimed: set<nat>, from: nat, end: nat, line: nat)
    requires from <= line < end && page.CommentOn(claimed, line, 0).Some?
    ensures page.CommentOn(claimed, line, 0).value in page.Taken(claimed, from, end)
    decreases line - from
  {
    hide Page.CommentOn, Page.Taken, Page.Available;
    TakenStep(page, claimed, from, end);
    if from < line {
      TakenHasLine(page, claimed, from + 1, end, line);
    }
  }

  /** The leading comments are a lower part of those the search takes. */
  lemma LeadingIsLower(page: Page, claimed: set<nat>, owner: LineOwner, from: nat, k: nat)
    requires owner.startLine > 0 && k in page.Leading(claimed, owner)
    requires from == page.Stop(claimed, owner.startLine, owner.startLine - 1) + 1
    ensures k in page.Taken(claimed, from, owner.startLine)
    ensures forall j :: j in page.Taken(claimed, from, owner.startLine) && page.LineOf(j) > page.LineOf(k) ==>
              j in page.Leading(claimed, owner)
  {
    hide Page.Blank, Page.Taken, Page.Stop, Page.FirstBlank, Filter, Page.LineOf;
    var taken, blank := page.Taken(claimed, from, owner.startLine), page.FirstBlank(1, owner.startLine);
    if blank.Some? {
      FilterMembers(taken, page.IsBelow(blank.value));
    }
  }

  /** From a leading comment down to its owner there are only blank lines and other leading comments. */
  lemma LeadingReachesOwner(page: Page, claimed: set<nat>, owner: LineOwner, k: nat, line: nat)
    requires k in page.Leading(claimed, owner) && page.LineOf(k) < line < owner.startLine
    ensures Bridged(page, page.Leading(claimed, owner), line)
  {
    var start := owner.startLine;
    var from := page.Stop(claimed, start, start - 1) + 1;
    var taken := page.Taken(claimed, from, start);
    TakenAreAvailable(page, claimed, from, start);
    hide Page.Blank, Page.Taken, Page.Stop, Page.Leading, TakenFrom, Page.CommentOn, Page.LineOf, Page.Available;
    LeadingIsLower(page, claimed, owner, from, k);
    TakenIsInRange(page, claimed, from, start, taken, k);
    SearchPasses(page, claimed, start, start - 1, line);
    var here := page.CommentOn(claimed, line, 0);
    if here.Some? {
      TakenHasLine(page, claimed, from, start, line);
      assert page.LineOf(here.value) == line;
      assert here.value in page.Leading(claimed, owner);
    }
  }

  lemma TakenIsInRange(page: Page, claimed: set<nat>, from: nat, end: nat, indices: seq<nat>, k: nat)
    requires TakenFrom(page, claimed, from, end, indices) && k in indices
    ensures from <= page.LineOf(k) < end
  {}

  lemma {:induction false} TrailingBridges(page: Page, claimed: set<nat>, ownerId: string, from: nat, maxLine: nat,
                                           k: nat, line: nat)
    requires from <= maxLine + 1 && k in page.TrailingFrom(claimed, ownerId, from, maxLine)
    requires from <= line < page.LineOf(k)
    ensures Bridged(page, page.TrailingFrom(claimed, ownerId, from, maxLine), line)
    decreases maxLine + 1 - from
  {
    var all := page.TrailingFrom(claimed, ownerId, from, maxLine);
    var first, next := page.CommentOn(claimed, from, 0).value, page.SkipBlank(from + 1, maxLine);
    hide Page.Blank, Page.CommentOn, Page.IndentFits, Page.SkipBlank;
    var rest := page.TrailingFrom(claimed, ownerId, next, maxLine);
    assert all == [first] + rest;
    if line == from {
      assert first in all;
    } else if next <= line {
      assert k in rest;
      TrailingBridges(page, claimed, ownerId, next, maxLine, k, line);
      assert forall j :: j in rest ==> j in all;
    }
  }

  /** Down to a trailing comment there are only blank lines and other trailing comments, and no blank first. */
  lemma TrailingReachesOwner(page: Page, claimed: set<nat>, owner: LineOwner, next: Option<LineOwner>, k: nat,
                             line: nat)
    requires k in page.Trailing(claimed, owner, next) && owner.endLine < line < page.LineOf(k)
    ensures Bridged(page, page.Trailing(claimed, owner, next), line)
    ensures !page.Blank(owner.endLine + 1)
  {
    hide Page.TrailingFrom, Page.Blank;
    TrailingBridges(page, claimed, owner.id, owner.endLine + 1, page.MaxLine(next), k, line);
  }

  // ----- one owner's round

  predicate OnOwner(owners: seq<LineOwner>, line: nat) {
    exists i :: 0 <= i < |owners| && owners[i].startLine <= line <= owners[i].endLine
  }

  /** The comments that end up in some region. */
  predicate HasRegion(page: Page, owners: seq<LineOwner>, k: nat) {
    k < |page.comments| &&
    (page.comments[k].fullLine || (page.comments[k].scope == OwnerScope && OnOwner(owners, page.comments[k].line)))
  }

  /** Where a region of each kind may take its comments from. */
  predicate OnItsSide(page: Page, owners: seq<LineOwner>, claim: Claim, k: nat) {
    k < |page.comments| &&
    var line := page.LineOf(k);
    match claim.kind
    case Leading => page.comments[k].fullLine && page.comments[k].scope == OwnerScope &&
      exists i :: 0 <= i < |owners| && owners[i].id == claim.ownerId && line < owners[i].startLine
    case Inline => !page.comments[k].fullLine && page.comments[k].scope == OwnerScope &&
      exists i :: 0 <= i < |owners| && owners[i].id == claim.ownerId && owners[i].startLine <= line <= owners[i].endLine
    case Trailing => page.comments[k].fullLine && page.comments[k].scope == OwnerScope &&
      exists i :: 0 <= i < |owners| && owners[i].id == claim.ownerId && owners[i].endLine < line
                  && (i + 1 < |owners| ==> line < owners[i + 1].startLine)
    case Preamble => page.comments[k].fullLine && owners != [] && line < owners[0].startLine
    case Postlude => page.comments[k].fullLine && page.comments[k].scope == OwnerScope
                     && owners != [] && line > owners[|owners| - 1].endLine
    case Orphan => page.comments[k].fullLine
  }

  predicate AllOnTheirSide(page: Page, owners: seq<LineOwner>, claims: seq<Claim>) {
    forall c, k :: c in claims && k in c.indices ==> OnItsSide(page, owners, c, k)
  }

  lemma ClaimOnSide(page: Page, owners: seq<LineOwner>, kind: RegionKind, ownerId: string, indices: seq<nat>,
                    floating: bool)
    requires forall k :: k in indices ==> OnItsSide(page, owners, Claim(kind, ownerId, [], false), k)
    ensures AllOnTheirSide(page, owners, ClaimIf(page, kind, ownerId, indices, floating))
  {
    SortKeepsMembers(LineOrder(page), indices);
  }

  lemma JoinSides(page: Page, owners: seq<LineOwner>, a: seq<Claim>, b: seq<Claim>)
    requires AllOnTheirSide(page, owners, a) && AllOnTheirSide(page, owners, b)
    ensures AllOnTheirSide(page, owners, a + b)
  {
    hide OnItsSide;
  }

  lemma SelectIsDistinct(n: nat, p: nat -> bool)
    ensures Distinct(Select(n, p))
  {}

  predicate OwnersSpan(owners: seq<LineOwner>) {
    forall i :: 0 <= i < |owners| ==> 1 <= owners[i].startLine <= owners[i].endLine
  }

  lemma LeadingPart(page: Page, owners: seq<LineOwner>, i: nat, claimed: set<nat>)
    requires i < |owners|
    ensures var leading := page.Leading(claimed, owners[i]);
            Distinct(leading) && forall k :: k in leading ==>
              && k !in claimed && page.LineOf(k) < owners[i].startLine
              && OnItsSide(page, owners, Claim(Leading, owners[i].id, [], false), k)
  {
    hide Page.Leading;
    LeadingIsAbove(page, claimed, owners[i]);
    TakenAreDistinct(page, claimed, 1, owners[i].startLine, page.Leading(claimed, owners[i]));
  }

  lemma InlinePart(page: Page, owners: seq<LineOwner>, i: nat, claimed: set<nat>)
    requires i < |owners|
    ensures var inline := page.Inline(claimed, owners[i]);
            Distinct(inline) && forall k :: k in inline ==>
              k !in claimed && OnItsSide(page, owners, Claim(Inline, owners[i].id, [], false), k)
  {
    hide Distinct;
    SelectIsDistinct(|page.comments|, page.IsInline(claimed, owners[i]));
  }

  lemma TrailingPart(page: Page, owners: seq<LineOwner>, i: nat, claimed: set<nat>)
    requires i < |owners| && OwnersSpan(owners)
    ensures var trailing := page.Trailing(claimed, owners[i], NextOwner(owners, i));
            Distinct(trailing) && forall k :: k in trailing ==>
              && k !in claimed && page.LineOf(k) > owners[i].endLine
              && OnItsSide(page, owners, Claim(Trailing, owners[i].id, [], false), k)
  {
    hide Page.TrailingFrom, Page.Blank;
    var owner := owners[i];
    var maxLine := page.MaxLine(NextOwner(owners, i));
    if owner.endLine + 1 <= maxLine {
      TrailingIsBelow(page, claimed, owner.id, owner.endLine + 1, maxLine);
      TakenAreDistinct(page, claimed, owner.endLine + 1, maxLine + 1,
                       page.TrailingFrom(claimed, owner.id, owner.endLine + 1, maxLine));
    }
  }

  /** The three lists of a round: disjoint, new, and on the right side of the owner. */
  lemma RoundParts(page: Page, owners: seq<LineOwner>, i: nat, claimed: set<nat>)
    requires i < |owners| && OwnersSpan(owners)
    ensures var leading, inline, trailing :=
              page.Leading(claimed, owners[i]), page.Inline(claimed, owners[i]),
              page.Trailing(claimed, owners[i], NextOwner(owners, i));
            && Distinct(leading) && Distinct(inline) && Distinct(trailing)
            && Members(leading) !! Members(inline) !! Members(trailing)
            && (Members(leading) + Members(inline) + Members(trailing)) !! claimed
            && (forall k :: k in leading ==> OnItsSide(page, owners, Claim(Leading, owners[i].id, [], false), k))
            && (forall k :: k in inline ==> OnItsSide(page, owners, Claim(Inline, owners[i].id, [], false), k))
            && (forall k :: k in trailing ==> OnItsSide(page, owners, Claim(Trailing, owners[i].id, [], false), k))
  {
    hide Page.Leading, Page.Inline, Page.Trailing, Distinct, OnOwner;
    LeadingPart(page, owners, i, claimed);
    InlinePart(page, owners, i, claimed);
    TrailingPart(page, owners, i, claimed);
  }

  /** Regions are disjoint and on their sides. */
  predicate Sound(page: Page, owners: seq<LineOwner>, claims: seq<Claim>) {
    OneRegionEach(claims) && AllOnTheirSide(page, owners, claims)
  }

  lemma JoinSound(page: Page, owners: seq<LineOwner>, a: seq<Claim>, b: seq<Claim>)
    requires Sound(page, owners, a) && Sound(page, owners, b) && Claimed(a) !! Claimed(b)
    ensures Sound(page, owners, a + b)
    ensures Claimed(a + b) == Claimed(a) + Claimed(b)
  {
    hide OneRegionEach, AllOnTheirSide, Claimed;
    JoinClaims(a, b);
    JoinSides(page, owners, a, b);
    ClaimsGrow(a, b);
  }

  lemma SoundClaim(page: Page, owners: seq<LineOwner>, kind: RegionKind, ownerId: string, indices: seq<nat>,
                   floating: bool)
    requires Distinct(indices)
    requires forall k :: k in indices ==> OnItsSide(page, owners, Claim(kind, ownerId, [], false), k)
    ensures Sound(page, owners, ClaimIf(page, kind, ownerId, indices, floating))
    ensures Claimed(ClaimIf(page, kind, ownerId, indices, floating)) == Members(indices)
  {
    hide OneRegionEach, AllOnTheirSide, Claimed, OnItsSide, Distinct, ClaimIf, Members;
    OneClaim(page, kind, ownerId, indices, floating);
    ClaimOnSide(page, owners, kind, ownerId, indices, floating);
    ClaimedIf(page, kind, ownerId, indices, floating);
  }

  lemma RoundIsSound(page: Page, owners: seq<LineOwner>, i: nat, claimed: set<nat>)
    requires i < |owners| && OwnersSpan(owners)
    ensures Sound(page, owners, OwnerRound(page, owners, i, claimed))
    ensures Claimed(OwnerRound(page, owners, i, claimed)) !! claimed
  {
    hide Page.Leading, Page.Inline, Page.Trailing, OnItsSide, ClaimIf, Claimed, Members, Sound, Distinct, OwnersSpan,
      Floats;
    RoundParts(page, owners, i, claimed);
    RoundClaims(page, owners, i, claimed);
    var owner := owners[i];
    var leading, inline := page.Leading(claimed, owner), page.Inline(claimed, owner);
    var trailing := page.Trailing(claimed, owner, NextOwner(owners, i));
    var floating := Floats(page, leading, owner);
    SoundClaim(page, owners, Leading, owner.id, leading, floating);
    SoundClaim(page, owners, Inline, owner.id, inline, false);
    SoundClaim(page, owners, Trailing, owner.id, trailing, false);
    var first, second := ClaimIf(page, Leading, owner.id, leading, floating),
        ClaimIf(page, Inline, owner.id, inline, false);
    JoinSound(page, owners, first, second);
    JoinSound(page, owners, first + second, ClaimIf(page, Trailing, owner.id, trailing, false));
  }

  lemma {:induction false} OwnerClaimsAreSound(page: Page, owners: seq<LineOwner>, n: nat)
    requires n <= |owners| && OwnersSpan(owners)
    ensures Sound(page, owners, OwnerClaims(page, owners, n))
  {
    hide Sound, OwnerRound, Claimed, OwnersSpan;
    if n == 0 {
      NothingIsSound(page, owners);
    } else {
      var before := OwnerClaims(page, owners, n - 1);
      OwnerClaimsAreSound(page, owners, n - 1);
      RoundIsSound(page, owners, n - 1, Claimed(before));
      JoinSound(page, owners, before, OwnerRound(page, owners, n - 1, Claimed(before)));
    }
  }

  lemma NothingIsSound(page: Page, owners: seq<LineOwner>)
    ensures Sound(page, owners, []) && Claimed([]) == {}
  {}

  lemma RoundTakesInline(page: Page, owners: seq<LineOwner>, i: nat, claimed: set<nat>, k: nat)
    requires i < |owners| && k < |page.comments| && !page.comments[k].fullLine && page.comments[k].scope == OwnerScope
    requires owners[i].startLine <= page.comments[k].line <= owners[i].endLine
    ensures k in claimed || k in Claimed(OwnerRound(page, owners, i, claimed))
  {
    RoundClaims(page, owners, i, claimed);
    hide OwnerRound, Claimed, Page.Leading, Page.Trailing;
    assert k in claimed || k in page.Inline(claimed, owners[i]);
  }

  /** Every inline comment on a line of one of the first `n` owners is claimed. */
  lemma {:induction false} InlineIsClaimed(page: Page, owners: seq<LineOwner>, n: nat, i: nat, k: nat)
    requires i < n <= |owners| && k < |page.comments|
    requires !page.comments[k].fullLine && page.comments[k].scope == OwnerScope
    requires owners[i].startLine <= page.comments[k].line <= owners[i].endLine
    ensures k in Claimed(OwnerClaims(page, owners, n))
  {
    hide OwnerRound, Claimed;
    var before := OwnerClaims(page, owners, n - 1);
    ClaimsGrow(before, OwnerRound(page, owners, n - 1, Claimed(before)));
    if i == n - 1 {
      RoundTakesInline(page, owners, i, Claimed(before), k);
    } else {
      InlineIsClaimed(page, owners, n - 1, i, k);
    }
  }

  // ----- the document's own regions

  /** Positions `i` and `i + 1` of the grouped comments are in one group. */
  ghost predicate ShareGroup(groups: seq<seq<nat>>, i: nat) {
    exists g: nat :: g < |groups| && Offset(groups, g) <= i && i + 1 < Offset(groups, g + 1)
  }

  /** The group that holds a position. */
  lemma {:induction false} GroupOf(groups: seq<seq<nat>>, n: nat, i: nat) returns (g: nat)
    requires n <= |groups| && i < Offset(groups, n)
    ensures g < n && Offset(groups, g) <= i < Offset(groups, g + 1)
  {
    hide Offset;
    FirstOffset(groups);
    if Offset(groups, n - 1) <= i {
      g := n - 1;
    } else {
      g := GroupOf(groups, n - 1, i);
    }
  }

  lemma FirstOffset(groups: seq<seq<nat>>)
    ensures Offset(groups, 0) == 0
  {
    assert groups[..0] == [];
  }

  lemma {:induction false} OffsetsGrow(groups: seq<seq<nat>>, a: nat, b: nat)
    requires a <= b <= |groups|
    ensures Offset(groups, a) <= Offset(groups, b)
  {
    hide Offset;
    if a < b {
      OffsetsGrow(groups, a, b - 1);
      OffsetNext(groups, b - 1);
    }
  }

  lemma MemberAt(groups: seq<seq<nat>>, g: nat, k: nat)
    requires g < |groups| && k < |groups[g]|
    ensures Offset(groups, g) + k < |Flatten(groups)|
    ensures Flatten(groups)[Offset(groups, g) + k] == groups[g][k]
  {
    hide Flatten, Offset;
    OffsetNext(groups, g);
    FlattenSlice(groups, g, g + 1);
    assert groups[g..g + 1] == [groups[g]];
    FlattenOne(groups[g]);
    var from := Offset(groups, g);
    assert Flatten(groups)[from..from + |groups[g]|][k] == groups[g][k];
  }

  /** Neighbouring remaining comments share a group exactly when all lines between them are blank. */
  lemma NeighboursShareGroup(page: Page, indices: seq<nat>, i: nat)
    requires i + 1 < |indices|
    ensures ShareGroup(page.Grouped(indices), i) <==>
            page.AllBlank(page.LineOf(indices[i]) + 1, page.LineOf(indices[i + 1]))
  {
    var groups := page.Grouped(indices);
    GroupedFlattens(page, indices);
    GroupedCuts(page, indices);
    hide Page.Grouped, Flatten, Offset, Page.AllBlank, Page.LineOf;
    OffsetEnd(groups);
    var g := GroupOf(groups, |groups|, i);
    OffsetNext(groups, g);
    var k := i - Offset(groups, g);
    MemberAt(groups, g, k);
    if i + 1 < Offset(groups, g + 1) {
      MemberAt(groups, g, k + 1);
      assert Linked(page, groups[g]);
      assert page.Joins(groups[g][k + 1 - 1], groups[g][k + 1]);
    } else {
      assert g + 1 < |groups|;
      MemberAt(groups, g + 1, 0);
      assert !page.Joins(Last(groups[g + 1 - 1]), First(groups[g + 1]));
      forall h: nat | h < |groups| && Offset(groups, h) <= i ensures Offset(groups, h + 1) <= i + 1 {
        if h < g {
          OffsetsGrow(groups, h + 1, g);
        } else if h > g {
          OffsetsGrow(groups, g + 1, h);
        }
      }
    }
  }

  predicate Ascends(s: seq<nat>) {
    forall i, j :: 0 <= i < j < |s| ==> s[i] < s[j]
  }

  lemma AscendsSplits(a: seq<nat>, b: seq<nat>)
    requires Ascends(a + b)
    ensures Ascends(a) && Ascends(b) && Members(a) !! Members(b)
  {
    assert forall i :: 0 <= i < |a| ==> (a + b)[i] == a[i];
    assert forall j :: 0 <= j < |b| ==> (a + b)[|a| + j] == b[j];
  }

  predicate AllFull(page: Page, group: seq<nat>) {
    forall i :: 0 <= i < |group| ==> group[i] < |page.comments| && page.comments[group[i]].fullLine
  }

  /** In line order, the last comment of a group is on its lowest line. */
  lemma LastIsLowest(page: Page, group: seq<nat>)
    requires SortedBy(ByLine(), page.comments) && Ascends(group) && AllFull(page, group) && group != []
    ensures forall k :: k in group ==> page.LineOf(k) <= page.LineOf(Last(group))
  {
    forall k | k in group ensures page.LineOf(k) <= page.LineOf(Last(group)) {
      var i :| 0 <= i < |group| && group[i] == k;
      if i < |group| - 1 {
        assert group[i] < group[|group| - 1];
        assert ByLine()(page.comments[k], page.comments[Last(group)]);
      }
    }
  }

  lemma GroupIsSound(page: Page, owners: seq<LineOwner>, group: seq<nat>, hasPreamble: bool)
    requires group != [] && Ascends(group) && AllFull(page, group) && SortedBy(ByLine(), page.comments)
    ensures Sound(page, owners, GroupClaims(page, owners, group, hasPreamble))
    ensures Claimed(GroupClaims(page, owners, group, hasPreamble)) == Members(group)
  {
    LastIsLowest(page, group);
    assert Distinct(group);
    hide Sound, ClaimIf, Claimed, Page.Blank, SortedBy;
    if hasPreamble || !BeforeOwners(page, owners, group) {
      SoundClaim(page, owners, Orphan, DocumentOwner(Orphan), group, false);
    } else {
      var split := SplitLine(page, owners, group);
      if split.Some? && Filter(group, IsAbove(page, split.value)) != [] {
        SplitGroupIsSound(page, owners, group, split.value);
      } else {
        SoundClaim(page, owners, Preamble, DocumentOwner(Preamble), group, false);
      }
    }
  }

  lemma SplitGroupIsSound(page: Page, owners: seq<LineOwner>, group: seq<nat>, line: nat)
    requires Distinct(group) && AllFull(page, group) && owners != [] && line < owners[0].startLine
    ensures var head, tail := Filter(group, IsAbove(page, line)), Filter(group, NotAbove(page, line));
            var claims := DocumentClaim(page, Preamble, head) + DocumentClaim(page, Orphan, tail);
            Sound(page, owners, claims) && Claimed(claims) == Members(group)
  {
    var head, tail := Filter(group, IsAbove(page, line)), Filter(group, NotAbove(page, line));
    FilterMembers(group, IsAbove(page, line));
    FilterMembers(group, NotAbove(page, line));
    FilterDistinct(group, IsAbove(page, line));
    FilterDistinct(group, NotAbove(page, line));
    assert forall i :: 0 <= i < |group| ==>
             OnItsSide(page, owners, Claim(Orphan, DocumentOwner(Orphan), [], false), group[i]);
    assert forall i :: 0 <= i < |group| && page.LineOf(group[i]) < line ==>
        OnItsSide(page, owners, Claim(Preamble, DocumentOwner(Preamble), [], false), group[i]);
    hide Sound, ClaimIf, Claimed, Filter, Distinct, OnItsSide, DocumentOwner, AllFull, Page.LineOf;
    SoundClaim(page, owners, Preamble, DocumentOwner(Preamble), head, false);
    SoundClaim(page, owners, Orphan, DocumentOwner(Orphan), tail, false);
    assert Members(head) !! Members(tail);
    assert Members(group) == Members(head) + Members(tail);
    JoinSound(page, owners, DocumentClaim(page, Preamble, head), DocumentClaim(page, Orphan, tail));
  }

  lemma {:induction false} RestIsSound(page: Page, owners: seq<LineOwner>, groups: seq<seq<nat>>, n: nat)
    requires n <= |groups| && forall g :: 0 <= g < |groups| ==> groups[g] != []
    requires Ascends(Flatten(groups[..n])) && AllFull(page, Flatten(groups[..n])) && SortedBy(ByLine(), page.comments)
    ensures Sound(page, owners, RestClaims(page, owners, groups, n))
    ensures Claimed(RestClaims(page, owners, groups, n)) == Members(Flatten(groups[..n]))
  {
    hide Sound, GroupClaims, Claimed, Flatten, SortedBy;
    if n == 0 {
      FlattenNone(groups[..0]);
      NothingIsSound(page, owners);
    } else {
      var before, group := Flatten(groups[..n - 1]), groups[n - 1];
      assert groups[..n] == groups[..n - 1] + [group];
      FlattenSnoc(groups[..n - 1], group);
      AscendsSplits(before, group);
      assert forall i :: 0 <= i < |before| ==> (before + group)[i] == before[i];
      assert forall i :: 0 <= i < |group| ==> (before + group)[|before| + i] == group[i];
      RestIsSound(page, owners, groups, n - 1);
      var claims := RestClaims(page, owners, groups, n - 1);
      GroupIsSound(page, owners, group, HasKind(claims, Preamble));
      JoinSound(page, owners, claims, GroupClaims(page, owners, group, HasKind(claims, Preamble)));
      assert Members(before + group) == Members(before) + Members(group);
    }
  }

  lemma PostludeIsOnSide(page: Page, owners: seq<LineOwner>, claimed: set<nat>)
    ensures forall k: nat :: page.IsPostlude(claimed, owners)(k) ==>
              k !in claimed && OnItsSide(page, owners, Claim(Postlude, DocumentOwner(Postlude), [], false), k)
  {}

  lemma PostludeIsSound(page: Page, owners: seq<LineOwner>)
    ensures Sound(page, owners, PostludeClaims(page, owners))
    ensures Claimed(PostludeClaims(page, owners)) !! Claimed(OwnerClaims(page, owners, |owners|))
  {
    var claimed := Claimed(OwnerClaims(page, owners, |owners|));
    var postlude := Select(|page.comments|, page.IsPostlude(claimed, owners));
    hide Sound, ClaimIf, Claimed, OwnerClaims, Select, DocumentOwner, OnItsSide;
    SelectIsDistinct(|page.comments|, page.IsPostlude(claimed, owners));
    PostludeIsOnSide(page, owners, claimed);
    SoundClaim(page, owners, Postlude, DocumentOwner(Postlude), postlude, false);
  }

  lemma SelectedAreFull(page: Page, claimed: set<nat>)
    ensures var remaining := Select(|page.comments|, page.IsRemaining(claimed));
            AllFull(page, remaining) && Ascends(remaining)
  {
    var remaining := Select(|page.comments|, page.IsRemaining(claimed));
    assert forall i :: 0 <= i < |remaining| ==> remaining[i] in remaining;
  }

  /** What is left after owners and postlude is in one of the remaining groups. */
  lemma RemainingIsSound(page: Page, owners: seq<LineOwner>)
    requires SortedBy(ByLine(), page.comments)
    ensures var groups, claimed := RemainingGroups(page, owners),
                Claimed(OwnerClaims(page, owners, |owners|) + PostludeClaims(page, owners));
            var rest := RestClaims(page, owners, groups, |groups|);
            && Sound(page, owners, rest)
            && Claimed(rest) !! claimed
            && forall k: nat :: k < |page.comments| && page.comments[k].fullLine ==> k in claimed || k in Claimed(rest)
  {
    var groups, claimed := RemainingGroups(page, owners),
      Claimed(OwnerClaims(page, owners, |owners|) + PostludeClaims(page, owners));
    var remaining := Select(|page.comments|, page.IsRemaining(claimed));
    GroupedFlattens(page, remaining);
    hide Sound, Claimed, OwnerClaims, PostludeClaims, RestClaims, Flatten, SortedBy, Page.Grouped, Select, AllFull;
    assert groups[..|groups|] == groups;
    SelectedAreFull(page, claimed);
    RestIsSound(page, owners, groups, |groups|);
  }

  /**
   * Comment accounting. No comment is in two regions; every region takes comments from its own side
   * only; and a comment is in a region exactly when it has a line of its own, or is scoped to an
   * owner and stands on an owner's lines.
   */
  lemma CommentsAreAccountedFor(page: Page, owners: seq<LineOwner>)
    requires SortedBy(ByLine(), page.comments) && OwnersSpan(owners)
    ensures OneRegionEach(AllClaims(page, owners)) && AllOnTheirSide(page, owners, AllClaims(page, owners))
    ensures forall k: nat :: k in Claimed(AllClaims(page, owners)) <==> HasRegion(page, owners, k)
  {
    var first, second := OwnerClaims(page, owners, |owners|), PostludeClaims(page, owners);
    var groups := RemainingGroups(page, owners);
    var rest := RestClaims(page, owners, groups, |groups|);
    hide OneRegionEach, AllOnTheirSide, Claimed, OwnerClaims, PostludeClaims, RestClaims, RemainingGroups, SortedBy,
      OwnersSpan;
    OwnerClaimsAreSound(page, owners, |owners|);
    PostludeIsSound(page, owners);
    JoinSound(page, owners, first, second);
    RemainingIsSound(page, owners);
    JoinSound(page, owners, first + second, rest);
    forall k: nat ensures k in Claimed(AllClaims(page, owners)) <==> HasRegion(page, owners, k) {
      if k in Claimed(AllClaims(page, owners)) {
        ClaimedHasRegion(page, owners, AllClaims(page, owners), k);
      }
      if HasRegion(page, owners, k) && !page.comments[k].fullLine {
        var i :| 0 <= i < |owners| && owners[i].startLine <= page.comments[k].line <= owners[i].endLine;
        InlineIsClaimed(page, owners, |owners|, i, k);
      }
    }
  }

  lemma ClaimedHasRegion(page: Page, owners: seq<LineOwner>, claims: seq<Claim>, k: nat)
    requires AllOnTheirSide(page, owners, claims) && k in Claimed(claims)
    ensures HasRegion(page, owners, k)
  {
    var i :| 0 <= i < |claims| && k in claims[i].indices;
    assert claims[i] in claims;
    assert OnItsSide(page, owners, claims[i], k);
  }
}
