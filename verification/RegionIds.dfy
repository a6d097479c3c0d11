/** When two regions of the comment augmenter share an id, and what that means for their assignment. */
module RegionIds {
  import opened Wrappers
  import opened Sequences
  import opened Sorting
  import opened Text
  import D = LineDispositions
  import L = LayoutGaps
  import P = LayoutGapProperties
  import C = Comments
  import Q = CommentProperties
  import opened LineAssignments
  import A = LineAssignmentProperties

  // ----- what an id names

  lemma NamesHaveNoColon(kind: C.RegionKind)
    ensures ':' !in kind.Name()
  {
    var name := kind.Name();
    match kind {
      case Leading => assert name == ['l', 'e', 'a', 'd', 'i', 'n', 'g'];
      case Inline => assert name == ['i', 'n', 'l', 'i', 'n', 'e'];
      case Trailing => assert name == ['t', 'r', 'a', 'i', 'l', 'i', 'n', 'g'];
      case Preamble => assert name == ['p', 'r', 'e', 'a', 'm', 'b', 'l', 'e'];
      case Postlude => assert name == ['p', 'o', 's', 't', 'l', 'u', 'd', 'e'];
      case Orphan => assert name == ['o', 'r', 'p', 'h', 'a', 'n'];
    }
  }

  lemma NamesDiffer(a: C.RegionKind, b: C.RegionKind)
    ensures a.Name() == b.Name() <==> a == b
  {
    assert C.RegionKind.Leading.Name()[0] == 'l' && C.RegionKind.Inline.Name()[0] == 'i';
    assert C.RegionKind.Trailing.Name()[0] == 't';
    assert C.RegionKind.Preamble.Name()[0] == 'p' && C.RegionKind.Postlude.Name()[0] == 'p';
    assert C.RegionKind.Orphan.Name()[0] == 'o';
    assert C.RegionKind.Preamble.Name()[1] == 'r' && C.RegionKind.Postlude.Name()[1] == 'o';
  }

  lemma CutAt(a: string, c: char, b: string)
    requires c !in a
    ensures FirstIndex(a + [c] + b, c) == |a| && (a + [c] + b)[..|a|] == a && (a + [c] + b)[|a| + 1..] == b
  {
    assert (a + [c] + b)[..|a|] == a;
    FirstIndexIs(a + [c] + b, c, |a|);
  }

  /** Equal heads and tails around the first separator. */
  lemma CutsAgree(a: string, b: string, a': string, b': string, c: char)
    requires c !in a && c !in a' && a + [c] + b == a' + [c] + b'
    ensures a == a' && b == b'
  {
    CutAt(a, c, b);
    CutAt(a', c, b');
  }

  lemma DashAfterDigits(n: nat)
    ensures '-' !in Decimal(n)
  {
    P.DecimalIsDigits(n);
  }

  lemma TailOfId(prefix: string, name: string, first: string, last: string)
    ensures (prefix + name + ":" + first + "-" + last)[|prefix|..] == name + [':'] + (first + ['-'] + last)
  {}

  lemma SameTails(prefix: string, nameA: string, firstA: string, lastA: string, nameB: string, firstB: string,
                  lastB: string)
    requires prefix + nameA + ":" + firstA + "-" + lastA == prefix + nameB + ":" + firstB + "-" + lastB
    requires ':' !in nameA && ':' !in nameB && '-' !in firstA && '-' !in firstB
    ensures nameA == nameB && firstA == firstB && lastA == lastB
  {
    TailOfId(prefix, nameA, firstA, lastA);
    TailOfId(prefix, nameB, firstB, lastB);
    CutsAgree(nameA, firstA + ['-'] + lastA, nameB, firstB + ['-'] + lastB, ':');
    CutsAgree(firstA, lastA, firstB, lastB, '-');
  }

  /** A region id names its kind, its first line and its last line, and nothing else. */
  lemma RegionIdNames(page: C.Page, a: C.Claim, b: C.Claim)
    requires a.indices != [] && b.indices != []
    ensures C.ClaimId(page, a) == C.ClaimId(page, b) <==>
            && a.kind == b.kind
            && page.LineOf(C.First(a.indices)) == page.LineOf(C.First(b.indices))
            && page.LineOf(C.Last(a.indices)) == page.LineOf(C.Last(b.indices))
  {
    hide Decimal, C.RegionKind.Name, C.Page.LineOf;
    if C.ClaimId(page, a) == C.ClaimId(page, b) {
      var firstA, firstB := page.LineOf(C.First(a.indices)), page.LineOf(C.First(b.indices));
      var lastA, lastB := page.LineOf(C.Last(a.indices)), page.LineOf(C.Last(b.indices));
      NamesHaveNoColon(a.kind);
      NamesHaveNoColon(b.kind);
      DashAfterDigits(firstA);
      DashAfterDigits(firstB);
      SameTails("comment-region:", a.kind.Name(), Decimal(firstA), Decimal(lastA),
                b.kind.Name(), Decimal(firstB), Decimal(lastB));
      NamesDiffer(a.kind, b.kind);
      DecimalInjective(firstA, firstB);
      DecimalInjective(lastA, lastB);
    }
  }

  // ----- the round that makes a claim

  /** The owner whose round makes claim `i` of the first `n` rounds. */
  function RoundOf(page: C.Page, owners: seq<LineOwner>, n: nat, i: nat): (p: nat)
    requires 0 < n <= |owners|
    ensures p < n
  {
    if n > 1 && i < |C.OwnerClaims(page, owners, n - 1)| then RoundOf(page, owners, n - 1, i) else n - 1
  }

  function ClaimsBefore(page: C.Page, owners: seq<LineOwner>, p: nat): set<nat>
    requires p <= |owners|
  {
    C.Claimed(C.OwnerClaims(page, owners, p))
  }

  function Round(page: C.Page, owners: seq<LineOwner>, p: nat): seq<C.Claim>
    requires p < |owners|
  {
    C.OwnerRound(page, owners, p, ClaimsBefore(page, owners, p))
  }

  lemma {:induction false} ClaimIsInRound(page: C.Page, owners: seq<LineOwner>, n: nat, i: nat)
    requires 0 < n <= |owners| && i < |C.OwnerClaims(page, owners, n)|
    ensures C.OwnerClaims(page, owners, n)[i] in Round(page, owners, RoundOf(page, owners, n, i))
  {
    hide C.OwnerRound, C.Claimed;
    if i < |C.OwnerClaims(page, owners, n - 1)| {
      ClaimIsInRound(page, owners, n - 1, i);
    }
  }

  lemma KindsOfRoundDiffer(page: C.Page, owners: seq<LineOwner>, p: nat)
    requires p < |owners|
    ensures var round := Round(page, owners, p);
            forall c, d :: 0 <= c < d < |round| ==> round[c].kind != round[d].kind
  {
    hide C.Page.Leading, C.Page.Trailing, C.Page.Inline, C.Floats, C.NextOwner, C.Claimed, C.ClaimIf;
    var owner, claimed := owners[p], ClaimsBefore(page, owners, p);
    var leading := page.Leading(claimed, owner);
    AtMostOne(page, C.Leading, owner.id, leading, C.Floats(page, leading, owner));
    AtMostOne(page, C.Inline, owner.id, page.Inline(claimed, owner), false);
    AtMostOne(page, C.Trailing, owner.id, page.Trailing(claimed, owner, C.NextOwner(owners, p)), false);
  }

  lemma AtMostOne(page: C.Page, kind: C.RegionKind, ownerId: string, indices: seq<nat>, floating: bool)
    ensures var claims := C.ClaimIf(page, kind, ownerId, indices, floating);
            |claims| <= 1 && (claims != [] ==> claims[0].kind == kind)
  {
    hide C.LineOrder;
  }

  /** Claims of one kind come from different rounds, in order. */
  lemma {:induction false} RoundsAscend(page: C.Page, owners: seq<LineOwner>, n: nat, i: nat, j: nat)
    requires 0 < n <= |owners| && i < j < |C.OwnerClaims(page, owners, n)|
    requires C.OwnerClaims(page, owners, n)[i].kind == C.OwnerClaims(page, owners, n)[j].kind
    ensures RoundOf(page, owners, n, i) < RoundOf(page, owners, n, j)
  {
    hide C.OwnerRound, C.Claimed;
    var before := |C.OwnerClaims(page, owners, n - 1)|;
    if j < before {
      RoundsAscend(page, owners, n - 1, i, j);
    } else {
      KindsOfRoundDiffer(page, owners, n - 1);
      assert C.OwnerClaims(page, owners, n) == C.OwnerClaims(page, owners, n - 1) + Round(page, owners, n - 1);
    }
  }

  /** What the upward search of an owner takes. */
  function Search(page: C.Page, owners: seq<LineOwner>, p: nat): seq<nat>
    requires p < |owners|
  {
    page.Leading(ClaimsBefore(page, owners, p), owners[p])
  }

  /** The lines from an owner's start up to the start of the next one. */
  predicate InSlot(owners: seq<LineOwner>, p: nat, line: nat)
    requires p < |owners|
  {
    owners[p].startLine <= line && (p + 1 < |owners| ==> line < owners[p + 1].startLine)
  }

  lemma ClaimShape(page: C.Page, kind: C.RegionKind, ownerId: string, indices: seq<nat>, floating: bool)
    ensures var claims := C.ClaimIf(page, kind, ownerId, indices, floating);
            |claims| <= 1 && forall c :: c in claims ==>
              c.kind == kind && c.indices != [] && forall k :: k in c.indices <==> k in indices
  {
    SortKeepsMembers(C.LineOrder(page), indices);
    if indices != [] {
      assert |Sort(C.LineOrder(page), indices)| == |indices|;
    }
  }

  /** Upward searches take one comment per line, from the top down. */
  lemma SearchIsSorted(page: C.Page, owners: seq<LineOwner>, p: nat)
    requires p < |owners|
    ensures Sort(C.LineOrder(page), Search(page, owners, p)) == Search(page, owners, p)
    ensures forall k :: k in Search(page, owners, p) ==>
              && k < |page.comments| && page.comments[k].fullLine && page.comments[k].scope == C.OwnerScope
              && page.LineOf(k) < owners[p].startLine
  {
    hide C.Page.Leading, ClaimsBefore;
    var search := Search(page, owners, p);
    Q.LeadingIsAbove(page, ClaimsBefore(page, owners, p), owners[p]);
    assert forall i, j :: 0 <= i < j < |search| ==> C.LineOrder(page)(search[i], search[j]);
    SortKeepsSorted(C.LineOrder(page), search);
  }

  lemma InlineIsInSlot(page: C.Page, owners: seq<LineOwner>, p: nat, k: nat)
    requires p < |owners| && Q.OwnersSpan(owners) && L.NeighboursApart(owners)
    requires k in page.Inline(ClaimsBefore(page, owners, p), owners[p])
    ensures InSlot(owners, p, page.LineOf(k))
  {
    hide ClaimsBefore;
    assert page.IsInline(ClaimsBefore(page, owners, p), owners[p])(k);
    if p + 1 < |owners| {
      assert owners[p].endLine < owners[p + 1].startLine;
    }
  }

  lemma TrailingIsInSlot(page: C.Page, owners: seq<LineOwner>, p: nat, k: nat)
    requires p < |owners| && Q.OwnersSpan(owners)
    requires k in page.Trailing(ClaimsBefore(page, owners, p), owners[p], C.NextOwner(owners, p))
    ensures InSlot(owners, p, page.LineOf(k))
  {
    hide ClaimsBefore, C.Page.TrailingFrom, C.Page.Blank;
    var claimed, owner, maxLine := ClaimsBefore(page, owners, p), owners[p], page.MaxLine(C.NextOwner(owners, p));
    Q.TrailingIsBelow(page, claimed, owner.id, owner.endLine + 1, maxLine);
    Q.TakenIsInRange(page, claimed, owner.endLine + 1, maxLine + 1,
                     page.TrailingFrom(claimed, owner.id, owner.endLine + 1, maxLine), k);
  }

  /** What a claim of each kind takes in an owner's round. */
  lemma RoundTakes(page: C.Page, owners: seq<LineOwner>, p: nat, c: C.Claim)
    requires p < |owners| && Q.OwnersSpan(owners) && L.NeighboursApart(owners) && c in Round(page, owners, p)
    ensures c.indices != []
    ensures c.kind == C.Leading || c.kind == C.Inline || c.kind == C.Trailing
    ensures c.kind == C.Leading ==> c.indices == Search(page, owners, p)
    ensures c.kind == C.Inline || c.kind == C.Trailing ==>
              forall k :: k in c.indices ==> InSlot(owners, p, page.LineOf(k))
  {
    hide C.Page.Leading, C.Page.Trailing, C.Page.Inline, C.Floats, C.NextOwner, ClaimsBefore, Q.OwnersSpan,
      L.NeighboursApart, C.LineOrder, InSlot;
    var owner, claimed := owners[p], ClaimsBefore(page, owners, p);
    var leading, inline := page.Leading(claimed, owner), page.Inline(claimed, owner);
    var trailing := page.Trailing(claimed, owner, C.NextOwner(owners, p));
    ClaimShape(page, C.Leading, owner.id, leading, C.Floats(page, leading, owner));
    ClaimShape(page, C.Inline, owner.id, inline, false);
    ClaimShape(page, C.Trailing, owner.id, trailing, false);
    SearchIsSorted(page, owners, p);
    forall k | k in inline ensures InSlot(owners, p, page.LineOf(k)) {
      InlineIsInSlot(page, owners, p, k);
    }
    forall k | k in trailing ensures InSlot(owners, p, page.LineOf(k)) {
      TrailingIsInSlot(page, owners, p, k);
    }
  }

  lemma {:induction false} StartsAscend(owners: seq<LineOwner>, p: nat, q: nat)
    requires Q.OwnersSpan(owners) && L.NeighboursApart(owners) && p < q < |owners|
    ensures p + 1 < |owners| && owners[p].startLine < owners[p + 1].startLine <= owners[q].startLine
  {
    assert owners[q - 1].endLine < owners[q - 1 + 1].startLine;
    if p + 1 < q {
      StartsAscend(owners, p, q - 1);
    }
  }

  lemma SlotsDiffer(owners: seq<LineOwner>, p: nat, q: nat, line: nat)
    requires Q.OwnersSpan(owners) && L.NeighboursApart(owners) && p < q < |owners|
    ensures !(InSlot(owners, p, line) && InSlot(owners, q, line))
  {
    StartsAscend(owners, p, q);
  }

  // ----- two upward searches over the same stretch

  /** Two owners' upward searches begin on one line and end on one line. */
  predicate SameStretch(page: C.Page, owners: seq<LineOwner>, p: nat, q: nat)
    requires p < q < |owners|
  {
    var a, b := Search(page, owners, p), Search(page, owners, q);
    && a != [] && b != []
    && page.LineOf(C.First(a)) == page.LineOf(C.First(b))
    && page.LineOf(C.Last(a)) == page.LineOf(C.Last(b))
  }

  predicate SearchesDiffer(page: C.Page, owners: seq<LineOwner>) {
    forall p, q :: 0 <= p < q < |owners| ==> !SameStretch(page, owners, p, q)
  }

  /** Two regions of owners share an id exactly when they are leading ones over the same stretch. */
  lemma OwnerIdsCollide(page: C.Page, owners: seq<LineOwner>, i: nat, j: nat)
    requires Q.OwnersSpan(owners) && L.NeighboursApart(owners)
    requires owners != [] && i < j < |C.OwnerClaims(page, owners, |owners|)|
    ensures var claims := C.OwnerClaims(page, owners, |owners|);
            C.ClaimId(page, claims[i]) == C.ClaimId(page, claims[j]) ==>
            && claims[i].kind == claims[j].kind == C.Leading
            && RoundOf(page, owners, |owners|, i) < RoundOf(page, owners, |owners|, j)
            && SameStretch(page, owners, RoundOf(page, owners, |owners|, i), RoundOf(page, owners, |owners|, j))
  {
    var claims := C.OwnerClaims(page, owners, |owners|);
    var p, q := RoundOf(page, owners, |owners|, i), RoundOf(page, owners, |owners|, j);
    ClaimIsInRound(page, owners, |owners|, i);
    ClaimIsInRound(page, owners, |owners|, j);
    hide C.OwnerClaims, Round, RoundOf, Search, C.ClaimId, C.Page.LineOf, InSlot, Q.OwnersSpan, L.NeighboursApart;
    RoundTakes(page, owners, p, claims[i]);
    RoundTakes(page, owners, q, claims[j]);
    RegionIdNames(page, claims[i], claims[j]);
    if C.ClaimId(page, claims[i]) == C.ClaimId(page, claims[j]) {
      RoundsAscend(page, owners, |owners|, i, j);
      SlotsDiffer(owners, p, q, page.LineOf(C.First(claims[i].indices)));
    }
  }

  // ----- the document's own regions never collide

  /** The remaining group that becomes claim `i` of the first `n` groups. */
  function GroupOf(page: C.Page, owners: seq<LineOwner>, groups: seq<seq<nat>>, n: nat, i: nat): (g: nat)
    requires 0 < n <= |groups| && forall g :: 0 <= g < |groups| ==> groups[g] != []
    ensures g < n
  {
    if n > 1 && i < |C.RestClaims(page, owners, groups, n - 1)| then GroupOf(page, owners, groups, n - 1, i) else n - 1
  }

  predicate DocumentClaimOf(group: seq<nat>, c: C.Claim) {
    && (c.kind == C.Preamble || c.kind == C.Orphan)
    && c.indices != []
    && forall k :: k in c.indices ==> k in group
  }

  lemma ClaimOfGroup(page: C.Page, owners: seq<LineOwner>, group: seq<nat>, hasPreamble: bool)
    requires group != []
    ensures var claims := C.GroupClaims(page, owners, group, hasPreamble);
            && (forall c :: c in claims ==> DocumentClaimOf(group, c))
            && (forall c, d :: 0 <= c < d < |claims| ==> claims[c].kind != claims[d].kind)
            && (hasPreamble ==> forall c :: c in claims ==> c.kind != C.Preamble)
  {
    hide C.SplitLine, C.BeforeOwners, C.ClaimIf, Filter, C.IsAbove, C.NotAbove;
    ClaimShape(page, C.Orphan, C.DocumentOwner(C.Orphan), group, false);
    ClaimShape(page, C.Preamble, C.DocumentOwner(C.Preamble), group, false);
    var split := C.SplitLine(page, owners, group);
    if split.Some? {
      var head, tail := Filter(group, C.IsAbove(page, split.value)), Filter(group, C.NotAbove(page, split.value));
      FilterMembers(group, C.IsAbove(page, split.value));
      FilterMembers(group, C.NotAbove(page, split.value));
      ClaimShape(page, C.Preamble, C.DocumentOwner(C.Preamble), head, false);
      ClaimShape(page, C.Orphan, C.DocumentOwner(C.Orphan), tail, false);
    }
  }

  lemma {:induction false} RestClaimIs(page: C.Page, owners: seq<LineOwner>, groups: seq<seq<nat>>, n: nat, i: nat)
    requires 0 < n <= |groups| && forall g :: 0 <= g < |groups| ==> groups[g] != []
    requires i < |C.RestClaims(page, owners, groups, n)|
    ensures DocumentClaimOf(groups[GroupOf(page, owners, groups, n, i)], C.RestClaims(page, owners, groups, n)[i])
  {
    hide C.GroupClaims, DocumentClaimOf, C.HasKind;
    var before := C.RestClaims(page, owners, groups, n - 1);
    if i < |before| {
      RestClaimIs(page, owners, groups, n - 1, i);
    } else {
      ClaimOfGroup(page, owners, groups[n - 1], C.HasKind(before, C.Preamble));
    }
  }

  /** There is one preamble at most, and orphans come from different groups, in order. */
  lemma {:induction false} GroupsAscend(page: C.Page, owners: seq<LineOwner>, groups: seq<seq<nat>>, n: nat, i: nat,
                                        j: nat)
    requires 0 < n <= |groups| && forall g :: 0 <= g < |groups| ==> groups[g] != []
    requires i < j < |C.RestClaims(page, owners, groups, n)|
    requires var rest := C.RestClaims(page, owners, groups, n); rest[i].kind == rest[j].kind
    ensures C.RestClaims(page, owners, groups, n)[i].kind != C.Preamble
    ensures GroupOf(page, owners, groups, n, i) < GroupOf(page, owners, groups, n, j)
  {
    hide C.GroupClaims, DocumentClaimOf;
    var before := C.RestClaims(page, owners, groups, n - 1);
    if j < |before| {
      GroupsAscend(page, owners, groups, n - 1, i, j);
    } else {
      ClaimOfGroup(page, owners, groups[n - 1], C.HasKind(before, C.Preamble));
      var more := C.GroupClaims(page, owners, groups[n - 1], C.HasKind(before, C.Preamble));
      assert C.RestClaims(page, owners, groups, n) == before + more;
      assert more[j - |before|] in more;
    }
  }

  /** Every line of a group is above every line of a later group. */
  predicate GroupsDescend(page: C.Page, groups: seq<seq<nat>>) {
    forall g, h, x, y :: (0 <= g < h < |groups| && x in groups[g] && y in groups[h]) ==> page.LineOf(x) < page.LineOf(y)
  }

  lemma BreakIsBelow(page: C.Page, j: nat, k: nat)
    requires !page.Joins(j, k)
    ensures page.LineOf(j) < page.LineOf(k)
  {}

  lemma {:induction false} LaterGroupIsBelow(page: C.Page, groups: seq<seq<nat>>, g: nat, h: nat, x: nat, y: nat)
    requires C.CutAtBreaks(page, groups) && SortedBy(C.ByLine(), page.comments)
    requires forall g :: 0 <= g < |groups| ==> Q.Ascends(groups[g]) && Q.AllFull(page, groups[g])
    requires g < h < |groups| && x in groups[g] && y in groups[h]
    ensures page.LineOf(x) < page.LineOf(y)
  {
    hide C.Page.Joins, C.Page.LineOf, SortedBy, C.Linked, Q.AllFull;
    Q.LastIsLowest(page, groups[g]);
    FirstIsHighest(page, groups[h]);
    BreakIsBelow(page, C.Last(groups[h - 1]), C.First(groups[h]));
    if g + 1 < h {
      LaterGroupIsBelow(page, groups, g, h - 1, x, C.Last(groups[h - 1]));
    }
  }

  lemma FirstIsHighest(page: C.Page, group: seq<nat>)
    requires SortedBy(C.ByLine(), page.comments) && Q.Ascends(group) && Q.AllFull(page, group) && group != []
    ensures forall k :: k in group ==> page.LineOf(C.First(group)) <= page.LineOf(k)
  {
    forall k | k in group ensures page.LineOf(C.First(group)) <= page.LineOf(k) {
      var i :| 0 <= i < |group| && group[i] == k;
      if i > 0 {
        assert group[0] < group[i];
        assert C.ByLine()(page.comments[C.First(group)], page.comments[k]);
      }
    }
  }

  lemma {:induction false} PiecesAscend(page: C.Page, groups: seq<seq<nat>>)
    requires Q.Ascends(Flatten(groups)) && Q.AllFull(page, Flatten(groups))
    ensures forall g :: 0 <= g < |groups| ==> Q.Ascends(groups[g]) && Q.AllFull(page, groups[g])
  {
    if groups != [] {
      var first, rest := groups[0], Flatten(groups[1..]);
      Q.AscendsSplits(first, rest);
      assert forall i :: 0 <= i < |first| ==> (first + rest)[i] == first[i];
      assert forall i :: 0 <= i < |rest| ==> (first + rest)[|first| + i] == rest[i];
      PiecesAscend(page, groups[1..]);
    }
  }

  lemma RemainingGroupsDescend(page: C.Page, owners: seq<LineOwner>)
    requires SortedBy(C.ByLine(), page.comments)
    ensures GroupsDescend(page, C.RemainingGroups(page, owners))
  {
    var groups, claimed := C.RemainingGroups(page, owners),
      C.Claimed(C.OwnerClaims(page, owners, |owners|) + C.PostludeClaims(page, owners));
    var remaining := Select(|page.comments|, page.IsRemaining(claimed));
    C.GroupedFlattens(page, remaining);
    C.GroupedCuts(page, remaining);
    Q.SelectedAreFull(page, claimed);
    hide C.OwnerClaims, C.PostludeClaims, C.Page.Grouped, Flatten, SortedBy, Q.AllFull, Q.Ascends, C.CutAtBreaks,
      Select, C.Page.LineOf;
    PiecesAscend(page, groups);
    forall g, h, x, y | 0 <= g < h < |groups| && x in groups[g] && y in groups[h]
      ensures page.LineOf(x) < page.LineOf(y)
    {
      LaterGroupIsBelow(page, groups, g, h, x, y);
    }
  }

  /** No two regions of the remaining groups share an id. */
  lemma RestIdsDiffer(page: C.Page, owners: seq<LineOwner>, i: nat, j: nat)
    requires SortedBy(C.ByLine(), page.comments)
    requires var groups := C.RemainingGroups(page, owners); i < j < |C.RestClaims(page, owners, groups, |groups|)|
    ensures var groups := C.RemainingGroups(page, owners);
            var rest := C.RestClaims(page, owners, groups, |groups|);
            C.ClaimId(page, rest[i]) != C.ClaimId(page, rest[j])
  {
    var groups := C.RemainingGroups(page, owners);
    var rest := C.RestClaims(page, owners, groups, |groups|);
    RemainingGroupsDescend(page, owners);
    RestClaimIs(page, owners, groups, |groups|, i);
    RestClaimIs(page, owners, groups, |groups|, j);
    hide C.RemainingGroups, C.RestClaims, C.ClaimId, C.Page.LineOf, SortedBy, GroupOf;
    RegionIdNames(page, rest[i], rest[j]);
    if C.ClaimId(page, rest[i]) == C.ClaimId(page, rest[j]) {
      GroupsAscend(page, owners, groups, |groups|, i, j);
    }
  }

  // ----- exactly when ids are distinct

  /** An upward search that takes anything makes a leading claim. */
  lemma {:induction false} SearchIsClaimed(page: C.Page, owners: seq<LineOwner>, n: nat, p: nat) returns (i: nat)
    requires p < n <= |owners| && Search(page, owners, p) != []
    ensures var claims := C.OwnerClaims(page, owners, n);
            i < |claims| && claims[i].kind == C.Leading && claims[i].indices == Search(page, owners, p)
            && RoundOf(page, owners, n, i) == p
  {
    hide C.OwnerRound, C.Page.Leading, C.Claimed;
    if p < n - 1 {
      i := SearchIsClaimed(page, owners, n - 1, p);
    } else {
      i := |C.OwnerClaims(page, owners, n - 1)|;
      RoundStartsWithSearch(page, owners, p);
    }
  }

  lemma RoundStartsWithSearch(page: C.Page, owners: seq<LineOwner>, p: nat)
    requires p < |owners| && Search(page, owners, p) != []
    ensures var round := Round(page, owners, p);
            round != [] && round[0].kind == C.Leading && round[0].indices == Search(page, owners, p)
  {
    SearchIsSorted(page, owners, p);
    hide C.Page.Leading, C.Page.Trailing, C.Page.Inline, C.Floats, C.NextOwner, C.LineOrder, ClaimsBefore;
  }

  /** In which part of the claims a claim stands. */
  datatype Part = OfOwner | OfPostlude | OfRest

  function PartOf(page: C.Page, owners: seq<LineOwner>, i: nat): Part {
    var owned, postlude := |C.OwnerClaims(page, owners, |owners|)|, |C.PostludeClaims(page, owners)|;
    if i < owned then OfOwner else if i < owned + postlude then OfPostlude else OfRest
  }

  /** The kind of a claim tells its part. */
  predicate Fits(part: Part, c: C.Claim) {
    && c.indices != []
    && match part
       case OfOwner => c.kind == C.Leading || c.kind == C.Inline || c.kind == C.Trailing
       case OfPostlude => c.kind == C.Postlude
       case OfRest => c.kind == C.Preamble || c.kind == C.Orphan
  }

  lemma PostludeShape(page: C.Page, owners: seq<LineOwner>)
    ensures |C.PostludeClaims(page, owners)| <= 1
    ensures forall c :: c in C.PostludeClaims(page, owners) ==> Fits(OfPostlude, c)
  {
    var claimed := ClaimsBefore(page, owners, |owners|);
    var postlude := Select(|page.comments|, page.IsPostlude(claimed, owners));
    hide C.OwnerClaims, C.Claimed, C.ClaimIf, Select;
    ClaimShape(page, C.Postlude, C.DocumentOwner(C.Postlude), postlude, false);
  }

  function RestOf(page: C.Page, owners: seq<LineOwner>): seq<C.Claim> {
    var groups := C.RemainingGroups(page, owners);
    C.RestClaims(page, owners, groups, |groups|)
  }

  /** The claim with index `i`, in its part. */
  lemma ClaimAt(page: C.Page, owners: seq<LineOwner>, i: nat)
    requires i < |C.AllClaims(page, owners)|
    ensures var owned, postlude := C.OwnerClaims(page, owners, |owners|), C.PostludeClaims(page, owners);
            var claim := C.AllClaims(page, owners)[i];
            match PartOf(page, owners, i)
            case OfOwner => i < |owned| && claim == owned[i]
            case OfPostlude => |owned| <= i < |owned| + |postlude| && claim == postlude[i - |owned|]
            case OfRest =>
              var k := i - |owned| - |postlude|;
              0 <= k < |RestOf(page, owners)| && claim == RestOf(page, owners)[k]
  {
    hide C.OwnerClaims, C.PostludeClaims, C.RestClaims, C.RemainingGroups;
  }

  lemma ClaimFitsPart(page: C.Page, owners: seq<LineOwner>, i: nat)
    requires Q.OwnersSpan(owners) && L.NeighboursApart(owners) && i < |C.AllClaims(page, owners)|
    ensures Fits(PartOf(page, owners, i), C.AllClaims(page, owners)[i])
  {
    hide C.AllClaims, C.OwnerClaims, C.PostludeClaims, C.RemainingGroups, C.RestClaims, Round, Q.OwnersSpan,
      L.NeighboursApart, RoundOf, GroupOf;
    ClaimAt(page, owners, i);
    PostludeShape(page, owners);
    NoOwnersNoClaims(page, owners);
    var owned, groups := C.OwnerClaims(page, owners, |owners|), C.RemainingGroups(page, owners);
    match PartOf(page, owners, i) {
      case OfOwner =>
        ClaimIsInRound(page, owners, |owners|, i);
        RoundTakes(page, owners, RoundOf(page, owners, |owners|, i), owned[i]);
      case OfPostlude =>
      case OfRest =>
        C.GroupsAreNotEmpty(page, owners);
        NoGroupsNoClaims(page, owners, groups);
        RestClaimIs(page, owners, groups, |groups|, i - |owned| - |C.PostludeClaims(page, owners)|);
    }
  }

  lemma NoOwnersNoClaims(page: C.Page, owners: seq<LineOwner>)
    ensures owners == [] ==> C.OwnerClaims(page, owners, |owners|) == []
  {}

  lemma NoGroupsNoClaims(page: C.Page, owners: seq<LineOwner>, groups: seq<seq<nat>>)
    requires forall g :: 0 <= g < |groups| ==> groups[g] != []
    ensures groups == [] ==> C.RestClaims(page, owners, groups, |groups|) == []
  {}

  /** Ids collide only between two leading regions over the same stretch. */
  lemma CollisionIsLeading(page: C.Page, owners: seq<LineOwner>, i: nat, j: nat)
    requires SortedBy(C.ByLine(), page.comments) && Q.OwnersSpan(owners) && L.NeighboursApart(owners)
    requires i < j < |C.AllClaims(page, owners)| && SearchesDiffer(page, owners)
    ensures C.ClaimId(page, C.AllClaims(page, owners)[i]) != C.ClaimId(page, C.AllClaims(page, owners)[j])
  {
    hide C.AllClaims, C.OwnerClaims, C.PostludeClaims, C.RemainingGroups, C.RestClaims, SortedBy, Q.OwnersSpan,
      L.NeighboursApart, C.ClaimId, SameStretch, RoundOf, C.Page.LineOf;
    ClaimFitsPart(page, owners, i);
    ClaimFitsPart(page, owners, j);
    ClaimAt(page, owners, i);
    ClaimAt(page, owners, j);
    PostludeShape(page, owners);
    NoOwnersNoClaims(page, owners);
    RegionIdNames(page, C.AllClaims(page, owners)[i], C.AllClaims(page, owners)[j]);
    var before := |C.OwnerClaims(page, owners, |owners|)| + |C.PostludeClaims(page, owners)|;
    if PartOf(page, owners, j) == OfOwner {
      OwnerIdsCollide(page, owners, i, j);
    } else if PartOf(page, owners, i) == OfRest {
      RestIdsDiffer(page, owners, i - before, j - before);
    }
  }

  /** Region ids are distinct exactly when no two owners' upward searches cover the same stretch. */
  lemma IdsDifferBySearches(page: C.Page, owners: seq<LineOwner>)
    requires SortedBy(C.ByLine(), page.comments) && Q.OwnersSpan(owners) && L.NeighboursApart(owners)
    ensures Distinct(A.ClaimIds(page, C.AllClaims(page, owners))) <==> SearchesDiffer(page, owners)
  {
    hide SortedBy, Q.OwnersSpan, L.NeighboursApart, C.ClaimId, SearchesDiffer, C.AllClaims;
    var claims := C.AllClaims(page, owners);
    if SearchesDiffer(page, owners) {
      forall i, j | 0 <= i < j < |claims| ensures C.ClaimId(page, claims[i]) != C.ClaimId(page, claims[j]) {
        CollisionIsLeading(page, owners, i, j);
      }
    } else {
      SameStretchCollides(page, owners);
    }
  }

  lemma OwnersComeFirst(page: C.Page, owners: seq<LineOwner>)
    ensures C.OwnerClaims(page, owners, |owners|) <= C.AllClaims(page, owners)
  {
    hide C.OwnerClaims, C.PostludeClaims, C.RestClaims, C.RemainingGroups;
  }

  lemma StretchCollides(page: C.Page, owners: seq<LineOwner>, p: nat, q: nat) returns (i: nat, j: nat)
    requires p < q < |owners| && SameStretch(page, owners, p, q)
    ensures var claims := C.OwnerClaims(page, owners, |owners|);
            i < |claims| && j < |claims| && i != j && C.ClaimId(page, claims[i]) == C.ClaimId(page, claims[j])
  {
    hide C.OwnerClaims, C.ClaimId, Search, RoundOf, C.Page.LineOf;
    i := SearchIsClaimed(page, owners, |owners|, p);
    j := SearchIsClaimed(page, owners, |owners|, q);
    var claims := C.OwnerClaims(page, owners, |owners|);
    RegionIdNames(page, claims[i], claims[j]);
  }

  lemma SameStretchCollides(page: C.Page, owners: seq<LineOwner>)
    requires !SearchesDiffer(page, owners)
    ensures !Distinct(A.ClaimIds(page, C.AllClaims(page, owners)))
  {
    hide C.AllClaims, C.OwnerClaims, C.ClaimId, SameStretch;
    var p, q :| 0 <= p < q < |owners| && SameStretch(page, owners, p, q);
    OwnersComeFirst(page, owners);
    var i, j := StretchCollides(page, owners, p, q);
    var claims := C.AllClaims(page, owners);
    assert claims[i] == C.OwnerClaims(page, owners, |owners|)[i]
           && claims[j] == C.OwnerClaims(page, owners, |owners|)[j];
    assert A.ClaimIds(page, claims)[i] == A.ClaimIds(page, claims)[j];
  }

  /**
   * Whatever the comment augmenter returns passes the assignment checks of the line dispositions
   * exactly when no two owners' upward searches begin on one line and end on one line.
   */
  lemma AugmentedRegionsPass(page: C.Page, owners: seq<LineOwner>, style: string, a: C.Augmentation,
                             observed: seq<C.Observation>)
    requires C.Augmented(page, owners, style, a, observed) && SortedBy(C.ByLine(), page.comments)
    requires Q.OwnersSpan(owners) && L.NeighboursApart(owners)
    ensures AssignedOnce(a) <==> SearchesDiffer(page, owners)
  {
    hide SortedBy, Q.OwnersSpan, L.NeighboursApart, SearchesDiffer, C.AllClaims, AssignedOnce, L.GapsOf, C.RestClaims,
      C.IdsOfKind, C.AttachmentAt, C.RemainingGroups, RegionIds, A.ClaimIds, Distinct;
    A.AugmentedRegionsAreAssigned(page, owners, style, a, observed);
    A.RegionIdsAreClaimIds(page, style, C.AllClaims(page, owners), a, observed);
    IdsDifferBySearches(page, owners);
  }

  // ----- conditions on the lines, owners and comments alone

  /** A comment that the search of an owner may take stands on the line. */
  predicate Carries(page: C.Page, line: nat, k: nat) {
    k < |page.comments| && page.comments[k].scope == C.OwnerScope && page.comments[k].fullLine
    && page.comments[k].line == line
  }

  /** No search can pass the line: it is not blank and carries no comment that a search may take. */
  predicate Solid(page: C.Page, line: nat) {
    !page.Blank(line) && forall k :: 0 <= k < |page.comments| ==> !Carries(page, line, k)
  }

  /** Two comments that searches may take stand on the line. */
  predicate Doubled(page: C.Page, line: nat) {
    exists j, k :: 0 <= j < k < |page.comments| && Carries(page, line, j) && Carries(page, line, k)
  }

  /** Between a doubled line above an owner and the start of the next owner there is a solid line. */
  predicate DoubledLinesGuarded(page: C.Page, owners: seq<LineOwner>) {
    forall p, line: nat :: 0 <= p < |owners| - 1 && line < owners[p].startLine && Doubled(page, line) ==>
      exists guard :: line < guard < owners[p + 1].startLine && Solid(page, guard)
  }

  lemma SearchPassesNoSolidLine(page: C.Page, owners: seq<LineOwner>, p: nat, k: nat, guard: nat)
    requires p < |owners| && k in Search(page, owners, p) && page.LineOf(k) < guard < owners[p].startLine
    ensures !Solid(page, guard)
  {
    hide C.Page.Leading, ClaimsBefore, C.Page.Blank;
    Q.LeadingReachesOwner(page, ClaimsBefore(page, owners, p), owners[p], k, guard);
    SearchIsSorted(page, owners, p);
    if !page.Blank(guard) {
      var j :| j in Search(page, owners, p) && page.LineOf(j) == guard;
      assert Carries(page, guard, j);
    }
  }

  lemma FirstIsAvailable(page: C.Page, owners: seq<LineOwner>, q: nat)
    requires q < |owners| && Search(page, owners, q) != []
    ensures var k := C.First(Search(page, owners, q));
            page.Available(ClaimsBefore(page, owners, q), page.LineOf(k), k)
  {
    hide C.Page.Leading, C.Page.LineOf, C.Page.Available, ClaimsBefore;
    Q.LeadingIsAbove(page, ClaimsBefore(page, owners, q), owners[q]);
    assert C.First(Search(page, owners, q)) == Search(page, owners, q)[0];
  }

  lemma AvailableIsCarried(page: C.Page, claimed: set<nat>, line: nat, k: nat)
    requires page.Available(claimed, line, k)
    ensures Carries(page, line, k) && k !in claimed
  {}

  /** Two searches over one stretch take different comments from its first line. */
  lemma SearchesTakeDifferent(page: C.Page, owners: seq<LineOwner>, p: nat, q: nat)
    requires p < q < |owners| && SameStretch(page, owners, p, q)
    ensures Doubled(page, page.LineOf(C.First(Search(page, owners, q))))
  {
    hide C.OwnerClaims, C.Page.Leading, C.Claimed, RoundOf, C.Page.LineOf, C.Page.Available, Search, Carries;
    var j, k := C.First(Search(page, owners, p)), C.First(Search(page, owners, q));
    FirstIsAvailable(page, owners, p);
    FirstIsAvailable(page, owners, q);
    AvailableIsCarried(page, ClaimsBefore(page, owners, p), page.LineOf(j), j);
    AvailableIsCarried(page, ClaimsBefore(page, owners, q), page.LineOf(k), k);
    var i := SearchIsClaimed(page, owners, q, p);
    assert j in C.OwnerClaims(page, owners, q)[i].indices;
    assert j in ClaimsBefore(page, owners, q);
  }

  /** When doubled lines are guarded, no two regions share an id. */
  lemma GuardedSearchesDiffer(page: C.Page, owners: seq<LineOwner>)
    requires Q.OwnersSpan(owners) && L.NeighboursApart(owners) && DoubledLinesGuarded(page, owners)
    ensures SearchesDiffer(page, owners)
  {
    hide Search, Solid, Doubled, C.Page.LineOf, Q.OwnersSpan, L.NeighboursApart;
    forall p, q | 0 <= p < q < |owners| ensures !SameStretch(page, owners, p, q) {
      if SameStretch(page, owners, p, q) {
        SearchesTakeDifferent(page, owners, p, q);
        var k := C.First(Search(page, owners, q));
        StretchIsAbove(page, owners, p, q);
        var guard :| page.LineOf(k) < guard < owners[q - 1 + 1].startLine && Solid(page, guard);
        SearchPassesNoSolidLine(page, owners, q, k, guard);
      }
    }
  }

  lemma StretchIsAbove(page: C.Page, owners: seq<LineOwner>, p: nat, q: nat)
    requires p < q < |owners| && SameStretch(page, owners, p, q)
    requires Q.OwnersSpan(owners) && L.NeighboursApart(owners)
    ensures page.LineOf(C.First(Search(page, owners, q))) < owners[q - 1].startLine
  {
    hide Search;
    SearchIsSorted(page, owners, p);
    assert C.First(Search(page, owners, p)) in Search(page, owners, p);
    if p < q - 1 {
      StartsAscend(owners, p, q - 1);
    }
  }

  /** It is enough that every owner but the last has a solid line. */
  lemma SolidOwnersAreGuarded(page: C.Page, owners: seq<LineOwner>)
    requires L.NeighboursApart(owners)
    requires forall p :: 0 <= p < |owners| - 1 ==>
               exists guard :: owners[p].startLine <= guard <= owners[p].endLine && Solid(page, guard)
    ensures DoubledLinesGuarded(page, owners)
  {
    hide Solid, Doubled;
    forall p, line: nat | 0 <= p < |owners| - 1 && line < owners[p].startLine && Doubled(page, line)
      ensures exists guard :: line < guard < owners[p + 1].startLine && Solid(page, guard)
    {
      var guard :| owners[p].startLine <= guard <= owners[p].endLine && Solid(page, guard);
      assert owners[p].endLine < owners[p + 1].startLine;
    }
  }

  /** It is also enough that comments which searches may take have lines of their own. */
  lemma SingleLinesAreGuarded(page: C.Page, owners: seq<LineOwner>)
    requires forall line :: !Doubled(page, line)
    ensures DoubledLinesGuarded(page, owners)
  {}

  lemma SortedAgain(owners: seq<LineOwner>)
    ensures Sort(L.ByPosition(), Sort(L.ByPosition(), owners)) == Sort(L.ByPosition(), owners)
  {
    SortSorts(L.ByPosition(), owners);
    hide Sort, SortedBy;
    SortKeepsSorted(L.ByPosition(), Sort(L.ByPosition(), owners));
  }

  lemma OrderedOwnersAreApart(lineCount: nat, ordered: seq<LineOwner>)
    requires L.Refusal(lineCount, ordered, []).None? && Sort(L.ByPosition(), ordered) == ordered
    ensures Q.OwnersSpan(ordered) && L.NeighboursApart(ordered)
  {
    hide Sort, L.NeighboursApart, L.ByPosition;
  }

  lemma AcceptedOwnersAreOrdered(lineCount: nat, owners: seq<LineOwner>)
    requires L.Refusal(lineCount, Sort(L.ByPosition(), owners), []).None?
    ensures Q.OwnersSpan(Sort(L.ByPosition(), owners)) && L.NeighboursApart(Sort(L.ByPosition(), owners))
  {
    hide Sort, L.Refusal, Q.OwnersSpan, L.NeighboursApart, L.ByPosition;
    SortedAgain(owners);
    OrderedOwnersAreApart(lineCount, Sort(L.ByPosition(), owners));
  }

  lemma CommentsAreOrdered(comments: seq<C.TrackedComment>)
    ensures SortedBy(C.ByLine(), Sort(C.ByLine(), comments))
  {
    SortSorts(C.ByLine(), comments);
  }

  /**
   * For every input that the augmenter accepts, its output passes the assignment checks exactly when
   * no two upward searches cover one stretch; guarded doubled lines, which only the lines, owners and
   * comments decide, are enough.
   */
  lemma AugmenterOutputIsAssigned(lines: seq<string>, owners: seq<LineOwner>, comments: seq<C.TrackedComment>,
                                  style: string, indents: map<string, nat>, policy: C.Policy,
                                  a: C.Augmentation, observed: seq<C.Observation>)
    requires L.Refusal(|lines|, Sort(L.ByPosition(), owners), []).None?
    requires C.Augmented(C.Page(lines, Sort(C.ByLine(), comments), indents, policy), Sort(L.ByPosition(), owners),
                         style, a, observed)
    ensures var page, ordered := C.Page(lines, Sort(C.ByLine(), comments), indents, policy),
            Sort(L.ByPosition(), owners);
            && (AssignedOnce(a) <==> SearchesDiffer(page, ordered))
            && (DoubledLinesGuarded(page, ordered) ==> AssignedOnce(a))
  {
    var page, ordered := C.Page(lines, Sort(C.ByLine(), comments), indents, policy), Sort(L.ByPosition(), owners);
    hide Sort, C.Augmented, L.Refusal, SearchesDiffer, AssignedOnce, DoubledLinesGuarded, Q.OwnersSpan,
      L.NeighboursApart, SortedBy, C.ByLine, L.ByPosition;
    AcceptedOwnersAreOrdered(|lines|, owners);
    CommentsAreOrdered(comments);
    AugmentedRegionsPass(page, ordered, style, a, observed);
    if DoubledLinesGuarded(page, ordered) {
      GuardedSearchesDiffer(page, ordered);
    }
  }

  // ----- unguarded lines do collide

  /** The line is blank and carries no comment that a search may take. */
  predicate Empty(page: C.Page, line: nat) {
    page.Blank(line) && forall k :: 0 <= k < |page.comments| ==> !Carries(page, line, k)
  }

  lemma NothingOn(page: C.Page, claimed: set<nat>, line: nat)
    requires forall k :: 0 <= k < |page.comments| ==> !Carries(page, line, k)
    ensures page.CommentOn(claimed, line, 0).None?
  {
    var found := page.CommentOn(claimed, line, 0);
    if found.Some? {
      assert page.Available(claimed, line, found.value);
      assert Carries(page, line, found.value);
    }
  }

  lemma {:induction false} StopsAbove(page: C.Page, claimed: set<nat>, start: nat, line: nat, from: nat)
    requires page.policy == C.PrecedingOwner && 1 < line <= from < start && Solid(page, line - 1)
    requires page.CommentOn(claimed, line, 0).Some?
    requires forall m: nat :: line < m < start ==> Empty(page, m)
    ensures page.Stop(claimed, start, from) == line - 1
  {
    hide C.Page.Blank, C.Page.CommentOn, C.Page.Taken, C.Page.PrefixAbove, Carries;
    C.StopStep(page, claimed, start, from);
    if line < from {
      assert Empty(page, from);
      StopsAbove(page, claimed, start, line, from - 1);
    } else {
      NothingOn(page, claimed, line - 1);
      C.StopStep(page, claimed, start, line - 1);
    }
  }

  lemma {:induction false} NothingTakenBelow(page: C.Page, claimed: set<nat>, from: nat, start: nat)
    requires forall m: nat :: from <= m < start ==> Empty(page, m)
    ensures page.Taken(claimed, from, start) == []
    decreases if from < start then start - from else 0
  {
    hide C.Page.CommentOn;
    if from < start {
      assert Empty(page, from);
      NothingOn(page, claimed, from);
      NothingTakenBelow(page, claimed, from + 1, start);
    }
  }

  lemma SearchOfOneLine(page: C.Page, claimed: set<nat>, owner: LineOwner, line: nat)
    requires page.policy == C.PrecedingOwner && 1 < line < owner.startLine && Solid(page, line - 1)
    requires page.CommentOn(claimed, line, 0).Some?
    requires forall m: nat :: line < m < owner.startLine ==> Empty(page, m)
    ensures page.Leading(claimed, owner) == [page.CommentOn(claimed, line, 0).value]
  {
    hide C.Page.Blank, C.Page.Taken, C.Page.Stop, C.Page.FirstBlank, Empty, Solid;
    var start, found := owner.startLine, page.CommentOn(claimed, line, 0).value;
    StopsAbove(page, claimed, start, line, start - 1);
    C.TakenStep(page, claimed, line, start);
    NothingTakenBelow(page, claimed, line + 1, start);
    assert page.Available(claimed, line, found);
    assert [found] + [] == [found];
  }

  /** Of two comments on a line, a search that takes one leaves the other. */
  lemma OtherStays(page: C.Page, owners: seq<LineOwner>, p: nat, k: nat, line: nat)
    requires p < |owners| && Q.OwnersSpan(owners) && line < owners[p].startLine
    requires Carries(page, line, k) && k !in ClaimsBefore(page, owners, p)
    requires k !in Search(page, owners, p)
    ensures k !in ClaimsBefore(page, owners, p + 1)
  {
    hide C.Page.Leading, C.Page.Trailing, C.Page.Inline, C.Claimed, C.OwnerRound, C.NextOwner, Q.OnItsSide;
    var claimed := ClaimsBefore(page, owners, p);
    C.ClaimsGrow(C.OwnerClaims(page, owners, p), Round(page, owners, p));
    C.RoundClaims(page, owners, p, claimed);
    Q.TrailingPart(page, owners, p, claimed);
    InlineHasNoLine(page, claimed, owners[p], k);
  }

  lemma InlineHasNoLine(page: C.Page, claimed: set<nat>, owner: LineOwner, k: nat)
    requires k < |page.comments| && page.comments[k].fullLine
    ensures k !in page.Inline(claimed, owner)
  {}

  lemma SomethingOn(page: C.Page, claimed: set<nat>, line: nat, k: nat)
    requires Carries(page, line, k) && k !in claimed
    ensures page.CommentOn(claimed, line, 0).Some?
    ensures page.Available(claimed, line, page.CommentOn(claimed, line, 0).value)
  {
    assert page.Available(claimed, line, k);
  }

  /**
   * With two free comments on a line, a solid line right above it and only empty lines from there to
   * the next owner, an owner and the next one take one comment each from that line and nothing else.
   */
  lemma UnguardedLineCollides(page: C.Page, owners: seq<LineOwner>, p: nat, line: nat, j: nat, k: nat)
    requires Q.OwnersSpan(owners) && L.NeighboursApart(owners) && p + 1 < |owners|
    requires page.policy == C.PrecedingOwner && 1 < line < owners[p].startLine && Solid(page, line - 1)
    requires j != k && Carries(page, line, j) && Carries(page, line, k)
    requires j !in ClaimsBefore(page, owners, p) && k !in ClaimsBefore(page, owners, p)
    requires forall m: nat :: line < m < owners[p + 1].startLine ==> Empty(page, m)
    ensures SameStretch(page, owners, p, p + 1)
  {
    hide C.Page.Leading, ClaimsBefore, C.Page.CommentOn, Empty, Solid, Carries;
    var before, after := ClaimsBefore(page, owners, p), ClaimsBefore(page, owners, p + 1);
    StartsAscend(owners, p, p + 1);
    SomethingOn(page, before, line, j);
    SearchOfOneLine(page, before, owners[p], line);
    var other := if page.CommentOn(before, line, 0).value == j then k else j;
    OtherStays(page, owners, p, other, line);
    SomethingOn(page, after, line, other);
    SearchOfOneLine(page, after, owners[p + 1], line);
  }

  // ----- the smallest such input

  function FourLines(): seq<string> { ["x", "#c", "", "b"] }

  function Remark(): C.TrackedComment {
    C.TrackedComment(2, "#c", "c", true, Some(0), false, C.OwnerScope)
  }

  function TwoRemarks(): C.Page {
    C.Page(FourLines(), [Remark(), Remark()], map[], C.PrecedingOwner)
  }

  function BlankOwnerFirst(): seq<LineOwner> {
    [D.LineOwner("A", 3, 3), D.LineOwner("B", 4, 4)]
  }

  lemma RemarksCollide()
    ensures Q.OwnersSpan(BlankOwnerFirst()) && L.NeighboursApart(BlankOwnerFirst())
    ensures SameStretch(TwoRemarks(), BlankOwnerFirst(), 0, 1)
  {
    var page, owners, lines := TwoRemarks(), BlankOwnerFirst(), FourLines();
    assert lines[0][0] == 'x' && !IsWhitespace(lines[0][0]) && lines[2] == "";
    assert !page.Blank(1) && page.Blank(3);
    assert Solid(page, 1);
    assert Carries(page, 2, 0) && Carries(page, 2, 1);
    assert ClaimsBefore(page, owners, 0) == {} by { C.NothingClaimed(); }
    assert Empty(page, 3);
    hide Solid, Empty, Carries, SameStretch, ClaimsBefore;
    UnguardedLineCollides(page, owners, 0, 2, 0, 1);
  }

  /**
   * Two full-line comments on one line above an owner on a blank line: both owners' regions get one
   * id, so the assignment checks refuse what the augmenter returns.
   */
  lemma RemarksAreRefused(style: string, a: C.Augmentation, observed: seq<C.Observation>)
    requires C.Augmented(TwoRemarks(), BlankOwnerFirst(), style, a, observed)
    ensures L.Refusal(4, BlankOwnerFirst(), []).None?
    ensures !AssignedOnce(a)
  {
    hide C.Augmented, AssignedOnce, SameStretch, Sort;
    RemarksCollide();
    SortKeepsSorted(L.ByPosition(), BlankOwnerFirst());
    assert SortedBy(C.ByLine(), TwoRemarks().comments);
    AugmentedRegionsPass(TwoRemarks(), BlankOwnerFirst(), style, a, observed);
    assert !SearchesDiffer(TwoRemarks(), BlankOwnerFirst());
  }
}
