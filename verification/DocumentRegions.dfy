/** The document's own comment regions, said of lines and of the comments that no owner holds. */
module DocumentRegions {
  import opened Sequences
  import opened Sorting
  import P = LayoutGapProperties
  import opened Comments
  import opened CommentProperties
  import opened CommentRegions

  // ----- groups

  predicate OnLine(page: Page, indices: seq<nat>, line: nat) {
    exists i :: 0 <= i < |indices| && page.LineOf(indices[i]) == line
  }

  /** Every line strictly between the two is blank or has one of the comments. */
  ghost predicate Clear(page: Page, indices: seq<nat>, low: nat, high: nat) {
    forall line: nat :: low < line < high ==> page.Blank(line) || OnLine(page, indices, line)
  }

  ghost predicate Joined(page: Page, indices: seq<nat>, j: nat, k: nat) {
    Clear(page, indices, page.LineOf(j), page.LineOf(k)) && Clear(page, indices, page.LineOf(k), page.LineOf(j))
  }

  predicate InLineOrder(page: Page, indices: seq<nat>) {
    forall i, j :: 0 <= i < j < |indices| ==> page.LineOf(indices[i]) <= page.LineOf(indices[j])
  }

  ghost predicate InSome(groups: seq<seq<nat>>, k: nat) {
    exists g :: 0 <= g < |groups| && k in groups[g]
  }

  /** The groups hold the comments in line order, and two comments share one exactly when they are joined. */
  ghost predicate CutsGroups(page: Page, indices: seq<nat>, groups: seq<seq<nat>>) {
    && (forall k: nat :: k in indices <==> InSome(groups, k))
    && (forall g, h, j: nat, k: nat ::
          0 <= g < |groups| && 0 <= h < |groups| && j in groups[g] && k in groups[h] ==>
            (g == h <==> Joined(page, indices, j, k)))
    && (forall g, h, j: nat, k: nat ::
          0 <= g < h < |groups| && j in groups[g] && k in groups[h] ==> page.LineOf(j) <= page.LineOf(k))
  }

  lemma ClearBelow(page: Page, first: seq<nat>, last: nat, low: nat, high: nat)
    requires high <= page.LineOf(last)
    ensures Clear(page, first + [last], low, high) <==> Clear(page, first, low, high)
  {
    OnLongerLine(page, first, last);
  }

  lemma OnLongerLine(page: Page, first: seq<nat>, last: nat)
    ensures forall line: nat ::
              OnLine(page, first + [last], line) <==> OnLine(page, first, line) || line == page.LineOf(last)
  {
    var s := first + [last];
    forall line: nat
      ensures OnLine(page, s, line) <==> OnLine(page, first, line) || line == page.LineOf(last)
    {
      if OnLine(page, first, line) {
        var i :| 0 <= i < |first| && page.LineOf(first[i]) == line;
        assert page.LineOf(s[i]) == line;
      }
      assert page.LineOf(s[|first|]) == page.LineOf(last);
    }
  }

  lemma ClearToLast(page: Page, first: seq<nat>, last: nat, low: nat)
    requires first != [] && InLineOrder(page, first + [last]) && low <= page.LineOf(Last(first))
    ensures Clear(page, first + [last], low, page.LineOf(last)) <==>
            Clear(page, first, low, page.LineOf(Last(first))) && page.Joins(Last(first), last)
  {
    OnLongerLine(page, first, last);
    var s := first + [last];
    assert forall i :: 0 <= i < |first| ==> s[i] == first[i];
    assert page.LineOf(Last(first)) <= page.LineOf(s[|first|]);
    hide Page.Blank, Page.LineOf;
    assert OnLine(page, first, page.LineOf(Last(first)));
    forall line: nat | OnLine(page, first, line) ensures line <= page.LineOf(Last(first)) {
      var i :| 0 <= i < |first| && page.LineOf(first[i]) == line;
      assert i < |first| - 1 ==> page.LineOf(s[i]) <= page.LineOf(s[|first| - 1]);
    }
  }

  lemma MemberIsBelow(page: Page, first: seq<nat>, last: nat, k: nat)
    requires InLineOrder(page, first + [last]) && k in first
    ensures page.LineOf(k) <= page.LineOf(Last(first)) <= page.LineOf(last)
  {
    var i :| 0 <= i < |first| && first[i] == k;
    var s := first + [last];
    assert s[i] == k && s[|first| - 1] == Last(first) && s[|first|] == last;
  }

  lemma JoinedStep(page: Page, first: seq<nat>, last: nat)
    requires InLineOrder(page, first + [last])
    ensures forall j: nat, k: nat :: j in first && k in first ==>
              (Joined(page, first + [last], j, k) <==> Joined(page, first, j, k))
    ensures forall j: nat :: j in first ==>
              (Joined(page, first + [last], j, last) <==>
               Joined(page, first, j, Last(first)) && page.Joins(Last(first), last))
    ensures forall j: nat, k: nat :: Joined(page, first + [last], j, k) <==> Joined(page, first + [last], k, j)
  {
    hide Page.Joins, Page.LineOf;
    forall j: nat, k: nat | j in first && k in first
      ensures Joined(page, first + [last], j, k) <==> Joined(page, first, j, k)
    {
      MemberIsBelow(page, first, last, j);
      MemberIsBelow(page, first, last, k);
      ClearBelow(page, first, last, page.LineOf(j), page.LineOf(k));
      ClearBelow(page, first, last, page.LineOf(k), page.LineOf(j));
    }
    forall j: nat | j in first
      ensures Joined(page, first + [last], j, last) <==>
              Joined(page, first, j, Last(first)) && page.Joins(Last(first), last)
    {
      MemberIsBelow(page, first, last, j);
      ClearToLast(page, first, last, page.LineOf(j));
    }
  }

  /** What a comment below all others changes about being joined. */
  ghost predicate Extends(page: Page, first: seq<nat>, last: nat, groups: seq<seq<nat>>) {
    var s := first + [last];
    && groups != [] && first != []
    && (forall j: nat :: j in first ==> page.LineOf(j) <= page.LineOf(last))
    && (forall j: nat, k: nat :: j in first && k in first ==> (Joined(page, s, j, k) <==> Joined(page, first, j, k)))
    && (forall j: nat :: j in first ==>
          (Joined(page, s, j, last) <==> Joined(page, s, last, j)))
    && (forall j: nat :: j in first ==>
          (Joined(page, s, j, last) <==> j in groups[|groups| - 1] && page.Joins(Last(first), last)))
    && Joined(page, s, last, last)
  }

  lemma LastExtends(page: Page, first: seq<nat>, last: nat, groups: seq<seq<nat>>)
    requires InLineOrder(page, first + [last]) && CutsGroups(page, first, groups)
    requires groups != [] && first != [] && groups[|groups| - 1] != [] && Last(groups[|groups| - 1]) == Last(first)
    ensures Extends(page, first, last, groups)
  {
    hide Joined, Page.LineOf, Page.Joins, InLineOrder;
    JoinedStep(page, first, last);
    SameIsJoined(page, first + [last], last);
    forall k: nat | k in first ensures page.LineOf(k) <= page.LineOf(last) {
      MemberIsBelow(page, first, last, k);
    }
    var m := |groups| - 1;
    assert Last(first) in groups[m];
    forall j: nat | j in first ensures Joined(page, first, j, Last(first)) <==> j in groups[m] {
      assert InSome(groups, j);
      var g :| 0 <= g < |groups| && j in groups[g];
    }
  }

  lemma SameIsJoined(page: Page, indices: seq<nat>, k: nat)
    ensures Joined(page, indices, k, k)
  {}

  lemma InOneIsInSome(groups: seq<seq<nat>>, g: nat, k: nat)
    requires g < |groups| && k in groups[g]
    ensures InSome(groups, k)
  {}

  lemma GrownGroup(groups: seq<seq<nat>>, last: nat)
    requires groups != []
    ensures var m := |groups| - 1;
            var after := groups[..m] + [groups[m] + [last]];
            && |after| == |groups|
            && (forall g, k: nat :: 0 <= g <= m ==> (k in after[g] <==> k in groups[g] || (g == m && k == last)))
            && forall k: nat :: InSome(after, k) <==> InSome(groups, k) || k == last
  {
    var m := |groups| - 1;
    var after := groups[..m] + [groups[m] + [last]];
    assert last in after[m];
    forall k: nat ensures InSome(after, k) <==> InSome(groups, k) || k == last {
      if InSome(groups, k) {
        var g :| 0 <= g < |groups| && k in groups[g];
        assert k in after[g];
      }
    }
  }

  lemma LastGroupGrows(page: Page, first: seq<nat>, last: nat, groups: seq<seq<nat>>)
    requires groups != [] && CutsGroups(page, first, groups) && Extends(page, first, last, groups)
    requires page.Joins(Last(first), last) && last !in first
    ensures var m := |groups| - 1;
            CutsGroups(page, first + [last], groups[..m] + [groups[m] + [last]])
  {
    hide Joined, Page.LineOf, Page.Joins, InSome;
    var m := |groups| - 1;
    var s, after := first + [last], groups[..m] + [groups[m] + [last]];
    GrownGroup(groups, last);
    forall g, k: nat | 0 <= g <= m && k in groups[g] ensures k in first {
      InOneIsInSome(groups, g, k);
    }
    forall g, h, j: nat, k: nat | 0 <= g <= m && 0 <= h <= m && j in after[g] && k in after[h]
      ensures g == h <==> Joined(page, s, j, k)
      ensures g < h ==> page.LineOf(j) <= page.LineOf(k)
    {
      SameIsJoined(page, first, j);
      SameIsJoined(page, first, k);
      if j == last {
        assert g == m;
      } else if k == last {
        assert j in groups[g] && h == m;
      } else {
        assert j in groups[g] && k in groups[h];
      }
    }
  }

  lemma AddedGroup(groups: seq<seq<nat>>, last: nat)
    ensures forall k: nat :: InSome(groups + [[last]], k) <==> InSome(groups, k) || k == last
  {
    var after := groups + [[last]];
    assert last in after[|groups|];
    forall k: nat ensures InSome(after, k) <==> InSome(groups, k) || k == last {
      if InSome(groups, k) {
        var g :| 0 <= g < |groups| && k in groups[g];
        assert k in after[g];
      }
    }
  }

  lemma GroupIsAdded(page: Page, first: seq<nat>, last: nat, groups: seq<seq<nat>>)
    requires groups != [] && CutsGroups(page, first, groups) && Extends(page, first, last, groups)
    requires !page.Joins(Last(first), last) && last !in first
    ensures CutsGroups(page, first + [last], groups + [[last]])
  {
    hide Joined, Page.LineOf, Page.Joins, InSome;
    var s, after := first + [last], groups + [[last]];
    AddedGroup(groups, last);
    forall g, k: nat | 0 <= g < |groups| && k in groups[g] ensures k in first {
      InOneIsInSome(groups, g, k);
    }
  }

  lemma OneGroup(page: Page, last: nat)
    ensures CutsGroups(page, [last], [[last]])
  {
    SameIsJoined(page, [last], last);
    hide Joined;
    assert forall k: nat :: k in [[last]][0] ==> InSome([[last]], k);
  }

  lemma {:induction false} GroupedIsExact(page: Page, indices: seq<nat>)
    requires InLineOrder(page, indices) && Ascends(indices)
    ensures var groups := page.Grouped(indices);
            && (groups != [] <==> indices != [])
            && (groups != [] ==> Last(groups[|groups| - 1]) == Last(indices))
            && CutsGroups(page, indices, groups)
  {
    hide CutsGroups, Page.Joins, Page.LineOf, Extends;
    if indices == [] {
      NoGroups(page);
    } else if |indices| == 1 {
      OneGroup(page, indices[0]);
      assert indices == [indices[0]] && indices[..0] == [];
      assert page.Grouped([]) == [];
      assert page.Grouped(indices) == [[indices[0]]];
    } else {
      var n := |indices| - 1;
      var first, last := indices[..n], indices[n];
      assert indices == first + [last];
      GroupedIsExact(page, first);
      var groups := page.Grouped(first);
      LastExtends(page, first, last, groups);
      if page.Joins(Last(first), last) {
        LastGroupGrows(page, first, last, groups);
      } else {
        GroupIsAdded(page, first, last, groups);
      }
    }
  }

  lemma NoGroups(page: Page)
    ensures CutsGroups(page, [], [])
  {}

  lemma {:induction false} GroupsAscend(page: Page, indices: seq<nat>)
    requires Ascends(indices)
    ensures var groups := page.Grouped(indices);
            && (groups != [] <==> indices != [])
            && (groups != [] ==> Last(groups[|groups| - 1]) == Last(indices))
            && forall g :: 0 <= g < |groups| ==> Ascends(groups[g])
  {
    hide Page.Joins;
    if |indices| > 0 {
      var n := |indices| - 1;
      assert Ascends(indices[..n]);
      GroupsAscend(page, indices[..n]);
    }
  }

  // ----- one group

  /** A blank line below the given one, above a comment of the group. */
  ghost predicate Gap(page: Page, group: seq<nat>, line: nat) {
    exists blank: nat, i :: 0 <= i < |group| && line < blank < page.LineOf(group[i]) && page.Blank(blank)
  }

  /** What of the first group goes to the preamble. */
  ghost predicate GroupPreamble(page: Page, owners: seq<LineOwner>, group: seq<nat>, k: nat) {
    && group != [] && k in group && owners != []
    && (forall i :: 0 <= i < |group| ==> page.LineOf(group[i]) < owners[0].startLine)
    && (page.LineOf(First(group)) == 1 && Gap(page, group, 1) ==> Gap(page, group, page.LineOf(k)))
  }

  lemma OrderedEnds(page: Page, group: seq<nat>)
    requires group != [] && InLineOrder(page, group)
    ensures forall i :: 0 <= i < |group| ==>
              page.LineOf(First(group)) <= page.LineOf(group[i]) <= page.LineOf(Last(group))
  {}

  lemma BeforeOwnersIsAbove(page: Page, owners: seq<LineOwner>, group: seq<nat>)
    requires group != [] && InLineOrder(page, group)
    ensures BeforeOwners(page, owners, group) <==>
            owners != [] && forall i :: 0 <= i < |group| ==> page.LineOf(group[i]) < owners[0].startLine
  {
    OrderedEnds(page, group);
    hide Page.LineOf, InLineOrder;
    assert Last(group) == group[|group| - 1];
  }

  lemma GapIsAboveLast(page: Page, group: seq<nat>, line: nat)
    requires group != [] && InLineOrder(page, group)
    ensures Gap(page, group, line) <==>
            exists blank: nat :: line < blank < page.LineOf(Last(group)) && page.Blank(blank)
  {
    OrderedEnds(page, group);
    hide Page.LineOf, InLineOrder, Page.Blank;
    if blank: nat :| line < blank < page.LineOf(Last(group)) && page.Blank(blank) {
      assert Last(group) == group[|group| - 1];
    }
  }

  /** The first group is split exactly when it starts the document and a blank line follows below line 1. */
  lemma SplitIsGap(page: Page, owners: seq<LineOwner>, group: seq<nat>)
    requires group != [] && InLineOrder(page, group) && BeforeOwners(page, owners, group)
    ensures var split := SplitLine(page, owners, group);
            var splits := split.Some? && Filter(group, IsAbove(page, split.value)) != [];
            && (splits <==> page.LineOf(First(group)) == 1 && Gap(page, group, 1))
            && (splits ==> forall k :: k in group ==>
                  (page.LineOf(k) < split.value <==> Gap(page, group, page.LineOf(k))))
  {
    var split := SplitLine(page, owners, group);
    OrderedEnds(page, group);
    if split.Some? {
      FilterMembers(group, IsAbove(page, split.value));
      var head := Filter(group, IsAbove(page, split.value));
      assert head != [] ==> head[0] in head;
    }
    GapIsAboveLast(page, group, 1);
    forall k ensures Gap(page, group, page.LineOf(k)) <==>
                     exists blank: nat :: page.LineOf(k) < blank < page.LineOf(Last(group)) && page.Blank(blank)
    {
      GapIsAboveLast(page, group, page.LineOf(k));
    }
    hide Page.LineOf, InLineOrder, Page.Blank, Gap, Filter;
    assert First(group) in group;
  }

  /** One claim holds both comments. */
  predicate Share(claims: seq<Claim>, j: nat, k: nat) {
    exists c :: c in claims && j in c.indices && k in c.indices
  }

  lemma ShareEither(a: seq<Claim>, b: seq<Claim>)
    ensures forall j, k :: Share(a + b, j, k) <==> Share(a, j, k) || Share(b, j, k)
    ensures forall kind :: HasKind(a + b, kind) <==> HasKind(a, kind) || HasKind(b, kind)
  {
    var s := a + b;
    forall kind ensures HasKind(s, kind) <==> HasKind(a, kind) || HasKind(b, kind) {
      if HasKind(a, kind) {
        var i :| 0 <= i < |a| && a[i].kind == kind;
        assert s[i] == a[i];
      }
      if HasKind(b, kind) {
        var i :| 0 <= i < |b| && b[i].kind == kind;
        assert s[|a| + i] == b[i];
      }
    }
  }

  lemma DocumentClaimIs(page: Page, kind: RegionKind, indices: seq<nat>)
    ensures forall other, id, k :: Holds(DocumentClaim(page, kind, indices), other, id, k) <==>
              other == kind && id == DocumentOwner(kind) && k in indices
    ensures forall j, k :: Share(DocumentClaim(page, kind, indices), j, k) <==> j in indices && k in indices
    ensures forall other :: HasKind(DocumentClaim(page, kind, indices), other) <==> other == kind && indices != []
  {
    ClaimIfHolds(page, kind, DocumentOwner(kind), indices, false);
    SortKeepsMembers(LineOrder(page), indices);
    hide Holds, DocumentOwner, LineOrder, Sort;
    var claims := DocumentClaim(page, kind, indices);
    assert indices != [] ==> claims[0] in claims && claims[0].kind == kind;
  }

  lemma FirstGroupIsExact(page: Page, owners: seq<LineOwner>, group: seq<nat>)
    requires group != [] && InLineOrder(page, group)
    ensures var claims := GroupClaims(page, owners, group, false);
            && (forall id, k :: Holds(claims, Preamble, id, k) <==>
                  id == DocumentOwner(Preamble) && GroupPreamble(page, owners, group, k))
            && (forall id, k :: Holds(claims, Orphan, id, k) <==>
                  id == DocumentOwner(Orphan) && k in group && !GroupPreamble(page, owners, group, k))
            && (forall j, k :: Share(claims, j, k) <==>
                  && j in group && k in group
                  && (GroupPreamble(page, owners, group, j) <==> GroupPreamble(page, owners, group, k)))
            && (HasKind(claims, Preamble) <==> BeforeOwners(page, owners, group))
  {
    hide Page.LineOf, InLineOrder, Page.Blank, Gap, Filter, DocumentClaim, Holds, Share, HasKind, SplitLine,
      DocumentOwner, BeforeOwners, IsAbove, NotAbove;
    BeforeOwnersIsAbove(page, owners, group);
    DocumentClaimIs(page, Orphan, group);
    DocumentClaimIs(page, Preamble, group);
    if BeforeOwners(page, owners, group) {
      SplitIsGap(page, owners, group);
      var split := SplitLine(page, owners, group);
      if split.Some? && Filter(group, IsAbove(page, split.value)) != [] {
        var head, tail := Filter(group, IsAbove(page, split.value)), Filter(group, NotAbove(page, split.value));
        SplitMembers(page, group, split.value);
        DocumentClaimIs(page, Preamble, head);
        DocumentClaimIs(page, Orphan, tail);
        HoldsEither(DocumentClaim(page, Preamble, head), DocumentClaim(page, Orphan, tail));
        ShareEither(DocumentClaim(page, Preamble, head), DocumentClaim(page, Orphan, tail));
      }
    }
  }

  lemma SplitMembers(page: Page, group: seq<nat>, line: nat)
    ensures forall k :: k in Filter(group, IsAbove(page, line)) <==> k in group && page.LineOf(k) < line
    ensures forall k :: k in Filter(group, NotAbove(page, line)) <==> k in group && page.LineOf(k) >= line
  {
    FilterMembers(group, IsAbove(page, line));
    FilterMembers(group, NotAbove(page, line));
  }

  // ----- all groups

  ghost predicate InLater(groups: seq<seq<nat>>, n: nat, k: nat) {
    exists g :: 1 <= g < n && g < |groups| && k in groups[g]
  }

  ghost predicate ShareLater(groups: seq<seq<nat>>, n: nat, j: nat, k: nat) {
    exists g :: 1 <= g < n && g < |groups| && j in groups[g] && k in groups[g]
  }

  lemma LaterGrows(groups: seq<seq<nat>>, n: nat)
    requires 1 <= n < |groups|
    ensures forall k :: InLater(groups, n + 1, k) <==> InLater(groups, n, k) || k in groups[n]
    ensures forall j, k ::
              ShareLater(groups, n + 1, j, k) <==> ShareLater(groups, n, j, k) || (j in groups[n] && k in groups[n])
  {}

  /** The groups in line order, each of them in line order. */
  predicate OrderedGroups(page: Page, groups: seq<seq<nat>>) {
    && (forall g :: 0 <= g < |groups| ==> groups[g] != [] && InLineOrder(page, groups[g]))
    && forall g :: 0 < g < |groups| ==> page.LineOf(Last(groups[0])) <= page.LineOf(Last(groups[g]))
  }

  lemma LaterIsOrphan(page: Page, owners: seq<LineOwner>, groups: seq<seq<nat>>, g: nat)
    requires 0 < g < |groups| && OrderedGroups(page, groups)
    ensures GroupClaims(page, owners, groups[g], BeforeOwners(page, owners, groups[0])) ==
            DocumentClaim(page, Orphan, groups[g])
  {
    hide DocumentClaim, InLineOrder, SplitLine, Filter;
  }

  lemma {:induction false} RestIsExact(page: Page, owners: seq<LineOwner>, groups: seq<seq<nat>>, n: nat)
    requires 1 <= n <= |groups| && OrderedGroups(page, groups)
    ensures var rest, first := RestClaims(page, owners, groups, n), GroupClaims(page, owners, groups[0], false);
            && (HasKind(rest, Preamble) <==> BeforeOwners(page, owners, groups[0]))
            && (forall id, k :: Holds(rest, Preamble, id, k) <==> Holds(first, Preamble, id, k))
            && (forall id, k :: Holds(rest, Orphan, id, k) <==>
                  Holds(first, Orphan, id, k) || (id == DocumentOwner(Orphan) && InLater(groups, n, k)))
            && (forall j, k :: Share(rest, j, k) <==> Share(first, j, k) || ShareLater(groups, n, j, k))
  {
    hide GroupClaims, Holds, Share, HasKind, BeforeOwners, DocumentOwner, DocumentClaim, InLineOrder, Page.LineOf;
    if n == 1 {
      assert RestClaims(page, owners, groups, 0) == [];
      NothingHolds();
      NoClaims();
      FirstGroupIsExact(page, owners, groups[0]);
      assert [] + GroupClaims(page, owners, groups[0], false) == GroupClaims(page, owners, groups[0], false);
    } else {
      var before := RestClaims(page, owners, groups, n - 1);
      RestIsExact(page, owners, groups, n - 1);
      LaterIsOrphan(page, owners, groups, n - 1);
      DocumentClaimIs(page, Orphan, groups[n - 1]);
      HoldsEither(before, DocumentClaim(page, Orphan, groups[n - 1]));
      ShareEither(before, DocumentClaim(page, Orphan, groups[n - 1]));
      LaterGrows(groups, n - 1);
      hide InLater, ShareLater;
    }
  }

  lemma NoClaims()
    ensures !HasKind([], Preamble)
  {}

  // ----- what remains

  /** A full-line comment that neither an owner nor the postlude holds. */
  ghost predicate Remains(page: Page, claims: seq<Claim>, owners: seq<LineOwner>, k: nat) {
    && k < |page.comments| && page.comments[k].fullLine
    && !TakenBy(claims, owners, |owners|, k) && !Holds(claims, Postlude, "document:postlude", k)
  }

  ghost predicate RemainsOn(page: Page, claims: seq<Claim>, owners: seq<LineOwner>, line: nat) {
    exists k: nat :: Remains(page, claims, owners, k) && page.LineOf(k) == line
  }

  /** Every line strictly between the two is blank or has a remaining comment. */
  ghost predicate ClearPath(page: Page, claims: seq<Claim>, owners: seq<LineOwner>, low: nat, high: nat) {
    forall line: nat :: low < line < high ==> page.Blank(line) || RemainsOn(page, claims, owners, line)
  }

  ghost predicate Together(page: Page, claims: seq<Claim>, owners: seq<LineOwner>, j: nat, k: nat) {
    && ClearPath(page, claims, owners, page.LineOf(j), page.LineOf(k))
    && ClearPath(page, claims, owners, page.LineOf(k), page.LineOf(j))
  }

  /** The remaining comments together with the first one: the first group. */
  ghost predicate WithFirst(page: Page, claims: seq<Claim>, owners: seq<LineOwner>, first: nat, k: nat) {
    Remains(page, claims, owners, k) && Together(page, claims, owners, first, k)
  }

  ghost predicate IsFirst(page: Page, claims: seq<Claim>, owners: seq<LineOwner>, first: nat) {
    && Remains(page, claims, owners, first)
    && forall k: nat :: Remains(page, claims, owners, k) ==> first <= k
  }

  /** A blank line below the given one, above a comment of the first group. */
  ghost predicate GapBelow(page: Page, claims: seq<Claim>, owners: seq<LineOwner>, first: nat, line: nat) {
    exists blank: nat, k: nat ::
      WithFirst(page, claims, owners, first, k) && line < blank < page.LineOf(k) && page.Blank(blank)
  }

  /**
   * The preamble: the first group of remaining comments, if all of it stands above the first owner;
   * and if it starts on line 1, only what stands above its last blank line that is not line 1.
   */
  ghost predicate InPreamble(page: Page, claims: seq<Claim>, owners: seq<LineOwner>, k: nat) {
    exists first: nat ::
      && IsFirst(page, claims, owners, first) && WithFirst(page, claims, owners, first, k)
      && owners != []
      && (forall j: nat :: WithFirst(page, claims, owners, first, j) ==> page.LineOf(j) < owners[0].startLine)
      && (page.LineOf(first) == 1 && GapBelow(page, claims, owners, first, 1) ==>
            GapBelow(page, claims, owners, first, page.LineOf(k)))
  }

  function Remaining(page: Page, owners: seq<LineOwner>): seq<nat> {
    Select(|page.comments|,
           page.IsRemaining(Claimed(OwnerClaims(page, owners, |owners|) + PostludeClaims(page, owners))))
  }

  lemma PostludeIsClaimed(page: Page, owners: seq<LineOwner>, k: nat)
    ensures k in Claimed(PostludeClaims(page, owners)) <==>
            Holds(AllClaims(page, owners), Postlude, "document:postlude", k)
  {
    hide Holds, AllClaims, Claimed, PostludeClaims, DocumentOwner, Page.IsPostlude;
    ClaimedIsHeld(PostludeClaims(page, owners), k);
    PostludeHolds(page, owners);
    PostludeKindIsPostlude(page, owners);
    PostludeOwner();
  }

  lemma PostludeOwner()
    ensures DocumentOwner(Postlude) == "document:postlude"
  {}

  lemma RemainsIsRemaining(page: Page, owners: seq<LineOwner>, k: nat)
    requires P.DistinctIds(owners) && OwnersSpan(owners)
    ensures k in Remaining(page, owners) <==> Remains(page, AllClaims(page, owners), owners, k)
  {
    hide Holds, AllClaims, Claimed, OwnerClaims, TakenBy, PostludeClaims, P.DistinctIds, OwnersSpan;
    BeforeIsTaken(page, owners, |owners|);
    PostludeIsClaimed(page, owners, k);
    ClaimsGrow(OwnerClaims(page, owners, |owners|), PostludeClaims(page, owners));
    assert k < |page.comments| ==>
        (k in Before(page, owners, |owners|) <==> TakenBy(AllClaims(page, owners), owners, |owners|, k));
    hide TakenSet;
    assert k in Remaining(page, owners) <==>
      k < |page.comments| && page.comments[k].fullLine
      && k !in Claimed(OwnerClaims(page, owners, |owners|) + PostludeClaims(page, owners));
  }

  lemma TogetherIsJoined(page: Page, owners: seq<LineOwner>, j: nat, k: nat)
    requires P.DistinctIds(owners) && OwnersSpan(owners)
    ensures Together(page, AllClaims(page, owners), owners, j, k) <==> Joined(page, Remaining(page, owners), j, k)
  {
    hide AllClaims, Remains, Remaining, P.DistinctIds, OwnersSpan, Page.Blank;
    var claims, remaining := AllClaims(page, owners), Remaining(page, owners);
    forall line: nat ensures RemainsOn(page, claims, owners, line) <==> OnLine(page, remaining, line) {
      if RemainsOn(page, claims, owners, line) {
        var i: nat :| Remains(page, claims, owners, i) && page.LineOf(i) == line;
        RemainsIsRemaining(page, owners, i);
        var at :| 0 <= at < |remaining| && remaining[at] == i;
        assert page.LineOf(remaining[at]) == line;
      }
      if OnLine(page, remaining, line) {
        var at :| 0 <= at < |remaining| && page.LineOf(remaining[at]) == line;
        RemainsIsRemaining(page, owners, remaining[at]);
      }
    }
  }

  lemma AscendingIsInOrder(page: Page, indices: seq<nat>)
    requires Ascends(indices) && InPage(page, indices) && SortedBy(ByLine(), page.comments)
    ensures InLineOrder(page, indices)
  {
    forall i, j | 0 <= i < j < |indices| ensures page.LineOf(indices[i]) <= page.LineOf(indices[j]) {
      assert ByLine()(page.comments[indices[i]], page.comments[indices[j]]);
    }
  }

  lemma GroupsAreCut(page: Page, owners: seq<LineOwner>)
    requires SortedBy(ByLine(), page.comments)
    ensures var groups, remaining := RemainingGroups(page, owners), Remaining(page, owners);
            && CutsGroups(page, remaining, groups) && OrderedGroups(page, groups)
            && (groups == [] <==> remaining == [])
  {
    hide Page.Grouped, OwnerClaims, PostludeClaims, Claimed, Select, SortedBy, CutsGroups, Page.LineOf, Ascends, InPage,
      InLineOrder, AllFull;
    var groups, remaining := RemainingGroups(page, owners), Remaining(page, owners);
    var claimed := Claimed(OwnerClaims(page, owners, |owners|) + PostludeClaims(page, owners));
    SelectedAreFull(page, claimed);
    SelectIsInPage(page, page.IsRemaining(claimed));
    AscendingIsInOrder(page, remaining);
    GroupedIsExact(page, remaining);
    GroupsAscend(page, remaining);
    GroupsAreInPage(page, remaining);
    forall g | 0 <= g < |groups| ensures groups[g] != [] && InLineOrder(page, groups[g]) {
      AscendingIsInOrder(page, groups[g]);
    }
    CutInOrder(page, remaining, groups);
  }

  lemma CutInOrder(page: Page, indices: seq<nat>, groups: seq<seq<nat>>)
    requires CutsGroups(page, indices, groups) && forall g :: 0 <= g < |groups| ==> groups[g] != []
    ensures forall g :: 0 < g < |groups| ==> page.LineOf(Last(groups[0])) <= page.LineOf(Last(groups[g]))
  {
    hide Page.LineOf, Joined;
    forall g | 0 < g < |groups| ensures page.LineOf(Last(groups[0])) <= page.LineOf(Last(groups[g])) {
      assert Last(groups[0]) in groups[0] && Last(groups[g]) in groups[g];
    }
  }

  /** The first group is the one of the first remaining comment. */
  lemma FirstGroup(page: Page, owners: seq<LineOwner>, first: nat)
    requires SortedBy(ByLine(), page.comments) && P.DistinctIds(owners) && OwnersSpan(owners)
    requires IsFirst(page, AllClaims(page, owners), owners, first)
    ensures var claims, groups := AllClaims(page, owners), RemainingGroups(page, owners);
            && groups != [] && groups[0] != [] && page.LineOf(First(groups[0])) == page.LineOf(first)
            && forall k: nat :: k in groups[0] <==> WithFirst(page, claims, owners, first, k)
  {
    hide AllClaims, Remains, Remaining, P.DistinctIds, OwnersSpan, SortedBy, Together, RemainingGroups, Page.LineOf,
      Joined, InLineOrder;
    var claims, groups, remaining := AllClaims(page, owners), RemainingGroups(page, owners), Remaining(page, owners);
    GroupsAreCut(page, owners);
    RemainsIsRemaining(page, owners, first);
    assert InSome(groups, first);
    var g :| 0 <= g < |groups| && first in groups[g];
    var head := First(groups[0]);
    assert head in groups[0] && InSome(groups, head);
    RemainsIsRemaining(page, owners, head);
    FirstIsHighest(page, claims, owners, first, head);
    assert page.LineOf(head) == page.LineOf(first) by {
      if g == 0 {
        MemberIsBelowFirst(page, groups[0], first);
      }
    }
    SameLineIsJoined(page, remaining, first, head);
    assert g == 0;
    forall k: nat ensures k in groups[0] <==> WithFirst(page, claims, owners, first, k) {
      RemainsIsRemaining(page, owners, k);
      TogetherIsJoined(page, owners, first, k);
      if k in groups[0] {
        assert InSome(groups, k);
      }
      if k in remaining {
        assert InSome(groups, k);
        var h :| 0 <= h < |groups| && k in groups[h];
      }
    }
  }

  lemma FirstIsHighest(page: Page, claims: seq<Claim>, owners: seq<LineOwner>, first: nat, k: nat)
    requires SortedBy(ByLine(), page.comments) && IsFirst(page, claims, owners, first)
    requires Remains(page, claims, owners, k)
    ensures page.LineOf(first) <= page.LineOf(k)
  {
    if first < k {
      assert ByLine()(page.comments[first], page.comments[k]);
    }
  }

  lemma MemberIsBelowFirst(page: Page, group: seq<nat>, k: nat)
    requires InLineOrder(page, group) && k in group
    ensures page.LineOf(First(group)) <= page.LineOf(k)
  {
    var i :| 0 <= i < |group| && group[i] == k;
  }

  lemma SameLineIsJoined(page: Page, indices: seq<nat>, j: nat, k: nat)
    requires page.LineOf(j) == page.LineOf(k)
    ensures Joined(page, indices, j, k)
  {}

  lemma SomeIsFirst(page: Page, claims: seq<Claim>, owners: seq<LineOwner>, k: nat)
    requires Remains(page, claims, owners, k)
    ensures exists first: nat :: IsFirst(page, claims, owners, first)
  {
    hide Remains;
    if !IsFirst(page, claims, owners, k) {
      var j: nat :| Remains(page, claims, owners, j) && j < k;
      SomeIsFirst(page, claims, owners, j);
    }
  }

  lemma GroupGap(page: Page, owners: seq<LineOwner>, first: nat, line: nat)
    requires SortedBy(ByLine(), page.comments) && P.DistinctIds(owners) && OwnersSpan(owners)
    requires IsFirst(page, AllClaims(page, owners), owners, first)
    ensures RemainingGroups(page, owners) != []
    ensures Gap(page, RemainingGroups(page, owners)[0], line) <==>
            GapBelow(page, AllClaims(page, owners), owners, first, line)
  {
    hide AllClaims, P.DistinctIds, OwnersSpan, SortedBy, RemainingGroups, Page.LineOf, WithFirst, IsFirst, Page.Blank;
    FirstGroup(page, owners, first);
    var claims, group := AllClaims(page, owners), RemainingGroups(page, owners)[0];
    if GapBelow(page, claims, owners, first, line) {
      var blank: nat, k: nat :|
        WithFirst(page, claims, owners, first, k) && line < blank < page.LineOf(k) && page.Blank(blank);
      var i :| 0 <= i < |group| && group[i] == k;
    }
    if Gap(page, group, line) {
      var blank: nat, i :|
        0 <= i < |group| && line < blank < page.LineOf(group[i]) && page.Blank(blank);
      assert group[i] in group;
    }
  }

  lemma OnlyOneIsFirst(page: Page, claims: seq<Claim>, owners: seq<LineOwner>, j: nat, k: nat)
    requires IsFirst(page, claims, owners, j) && IsFirst(page, claims, owners, k)
    ensures j == k
  {}

  lemma FirstGroupPreamble(page: Page, owners: seq<LineOwner>, k: nat)
    requires SortedBy(ByLine(), page.comments) && P.DistinctIds(owners) && OwnersSpan(owners)
    requires RemainingGroups(page, owners) != []
    ensures GroupPreamble(page, owners, RemainingGroups(page, owners)[0], k) <==>
            InPreamble(page, AllClaims(page, owners), owners, k)
  {
    hide AllClaims, P.DistinctIds, OwnersSpan, SortedBy, RemainingGroups, Page.LineOf, WithFirst, IsFirst, Gap,
      GapBelow, Remaining, CutsGroups;
    var claims, group := AllClaims(page, owners), RemainingGroups(page, owners)[0];
    GroupsAreCut(page, owners);
    var some := Remaining(page, owners)[0];
    RemainsIsRemaining(page, owners, some);
    SomeIsFirst(page, claims, owners, some);
    var first: nat :| IsFirst(page, claims, owners, first);
    forall j: nat | IsFirst(page, claims, owners, j) ensures j == first {
      OnlyOneIsFirst(page, claims, owners, j, first);
    }
    FirstGroup(page, owners, first);
    GroupGap(page, owners, first, 1);
    GroupGap(page, owners, first, page.LineOf(k));
    assert forall i :: 0 <= i < |group| ==> group[i] in group;
  }

  // ----- results

  /** The rest of the claims, for comments that remain. */
  lemma RestHoldsRemaining(page: Page, owners: seq<LineOwner>)
    ensures var groups := RemainingGroups(page, owners);
            (forall g :: 0 <= g < |groups| ==> groups[g] != []) &&
            var rest := RestClaims(page, owners, groups, |groups|);
            forall kind, id, k :: kind == Preamble || kind == Orphan ==>
              (Holds(AllClaims(page, owners), kind, id, k) <==> Holds(rest, kind, id, k))
  {
    hide Holds, OwnerClaims, PostludeClaims, RestClaims, RemainingGroups, RoundHolds;
    GroupsAreNotEmpty(page, owners);
    var groups := RemainingGroups(page, owners);
    var rest := RestClaims(page, owners, groups, |groups|);
    RoundsAreExact(page, owners, |owners|);
    PostludeHolds(page, owners);
    forall kind, id, k | kind == Preamble || kind == Orphan
      ensures !Holds(OwnerClaims(page, owners, |owners|), kind, id, k)
    {
      forall q: nat | q < |owners| ensures !RoundHolds(page, owners, q, Before(page, owners, q), kind, k) {
        if RoundHolds(page, owners, q, Before(page, owners, q), kind, k) {
          RoundIsOfOwner(page, owners, q, Before(page, owners, q), kind, k);
        }
      }
    }
    HoldsEither(OwnerClaims(page, owners, |owners|), PostludeClaims(page, owners));
    HoldsEither(OwnerClaims(page, owners, |owners|) + PostludeClaims(page, owners), rest);
  }

  lemma DocumentNames()
    ensures DocumentOwner(Preamble) == "document:preamble"
    ensures DocumentOwner(Orphan) == "document:orphan"
  {}

  lemma LaterIsNotFirst(page: Page, indices: seq<nat>, groups: seq<seq<nat>>, k: nat)
    requires CutsGroups(page, indices, groups) && groups != []
    ensures k in indices <==> k in groups[0] || InLater(groups, |groups|, k)
    ensures InLater(groups, |groups|, k) ==> k !in groups[0]
  {
    hide Joined;
    SameIsJoined(page, indices, k);
    if k in indices {
      assert InSome(groups, k);
      var g :| 0 <= g < |groups| && k in groups[g];
    }
    if k in groups[0] {
      InOneIsInSome(groups, 0, k);
    }
    if InLater(groups, |groups|, k) {
      var g :| 1 <= g < |groups| && k in groups[g];
      InOneIsInSome(groups, g, k);
    }
  }

  /** The preamble holds exactly what the rule for it says, and every other remaining comment is an orphan. */
  lemma RemainingRegionsAreExact(page: Page, owners: seq<LineOwner>, k: nat)
    requires SortedBy(ByLine(), page.comments) && P.DistinctIds(owners) && OwnersSpan(owners)
    ensures var claims := AllClaims(page, owners);
            && (Holds(claims, Preamble, "document:preamble", k) <==> InPreamble(page, claims, owners, k))
            && (Holds(claims, Orphan, "document:orphan", k) <==>
                  Remains(page, claims, owners, k) && !InPreamble(page, claims, owners, k))
  {
    hide AllClaims, P.DistinctIds, OwnersSpan, SortedBy, RemainingGroups, Holds, Remaining, CutsGroups, InPreamble,
      Remains, RestClaims, OrderedGroups, GroupClaims, GroupPreamble, InLater, Share, HasKind, DocumentOwner;
    var claims, groups := AllClaims(page, owners), RemainingGroups(page, owners);
    DocumentNames();
    GroupsAreCut(page, owners);
    RestHoldsRemaining(page, owners);
    RemainsIsRemaining(page, owners, k);
    if groups == [] {
      NothingRests(page, owners, groups);
      NothingHolds();
      if InPreamble(page, claims, owners, k) {
        InPreambleRemains(page, claims, owners, k);
      }
    } else {
      FirstIsOrdered(page, groups);
      RestIsExact(page, owners, groups, |groups|);
      FirstGroupIsExact(page, owners, groups[0]);
      FirstGroupPreamble(page, owners, k);
      LaterIsNotFirst(page, Remaining(page, owners), groups, k);
      PreambleIsInGroup(page, owners, groups[0], k);
    }
  }

  lemma NothingRests(page: Page, owners: seq<LineOwner>, groups: seq<seq<nat>>)
    requires groups == []
    ensures RestClaims(page, owners, groups, |groups|) == []
  {}

  lemma FirstIsOrdered(page: Page, groups: seq<seq<nat>>)
    requires groups != [] && OrderedGroups(page, groups)
    ensures groups[0] != [] && InLineOrder(page, groups[0])
  {}

  lemma InPreambleRemains(page: Page, claims: seq<Claim>, owners: seq<LineOwner>, k: nat)
    requires InPreamble(page, claims, owners, k)
    ensures Remains(page, claims, owners, k)
  {}

  lemma PreambleIsInGroup(page: Page, owners: seq<LineOwner>, group: seq<nat>, k: nat)
    ensures GroupPreamble(page, owners, group, k) ==> k in group
  {}

  /**
   * Two remaining comments are in one region exactly when every line between them is blank or has a
   * remaining comment, and both are in the preamble or neither.
   */
  lemma RegionsAreRuns(page: Page, owners: seq<LineOwner>, j: nat, k: nat)
    requires SortedBy(ByLine(), page.comments) && P.DistinctIds(owners) && OwnersSpan(owners)
    requires Remains(page, AllClaims(page, owners), owners, j) && Remains(page, AllClaims(page, owners), owners, k)
    ensures var claims := AllClaims(page, owners);
            Share(claims, j, k) <==>
            && Together(page, claims, owners, j, k)
            && (InPreamble(page, claims, owners, j) <==> InPreamble(page, claims, owners, k))
  {
    hide AllClaims, P.DistinctIds, OwnersSpan, SortedBy, RemainingGroups, Holds, Remaining, CutsGroups, InPreamble,
      Remains, RestClaims, OrderedGroups, GroupClaims, GroupPreamble, InLater, ShareLater, Share, HasKind,
      DocumentOwner, Together, Joined;
    var claims, groups := AllClaims(page, owners), RemainingGroups(page, owners);
    GroupsAreCut(page, owners);
    RemainsIsRemaining(page, owners, j);
    RemainsIsRemaining(page, owners, k);
    TogetherIsJoined(page, owners, j, k);
    FirstIsOrdered(page, groups);
    RestSharesRemaining(page, owners, j, k);
    RestIsExact(page, owners, groups, |groups|);
    FirstGroupIsExact(page, owners, groups[0]);
    FirstGroupPreamble(page, owners, j);
    FirstGroupPreamble(page, owners, k);
    LaterIsNotFirst(page, Remaining(page, owners), groups, j);
    LaterIsNotFirst(page, Remaining(page, owners), groups, k);
    PreambleIsInGroup(page, owners, groups[0], j);
    PreambleIsInGroup(page, owners, groups[0], k);
    SharingIsJoined(page, Remaining(page, owners), groups, j, k);
  }

  lemma SharingIsJoined(page: Page, indices: seq<nat>, groups: seq<seq<nat>>, j: nat, k: nat)
    requires CutsGroups(page, indices, groups) && groups != [] && j in indices && k in indices
    ensures Joined(page, indices, j, k) <==>
            (j in groups[0] && k in groups[0]) || ShareLater(groups, |groups|, j, k)
    ensures ShareLater(groups, |groups|, j, k) ==> InLater(groups, |groups|, j) && InLater(groups, |groups|, k)
  {
    hide Joined;
    assert InSome(groups, j) && InSome(groups, k);
    var g :| 0 <= g < |groups| && j in groups[g];
    var h :| 0 <= h < |groups| && k in groups[h];
  }

  lemma RestSharesRemaining(page: Page, owners: seq<LineOwner>, j: nat, k: nat)
    requires P.DistinctIds(owners) && OwnersSpan(owners)
    requires j in Remaining(page, owners)
    ensures var groups := RemainingGroups(page, owners);
            (forall g :: 0 <= g < |groups| ==> groups[g] != []) &&
            (Share(AllClaims(page, owners), j, k) <==>
             Share(RestClaims(page, owners, groups, |groups|), j, k))
  {
    hide OwnerClaims, PostludeClaims, RestClaims, RemainingGroups, Share, Claimed;
    GroupsAreNotEmpty(page, owners);
    var first, second := OwnerClaims(page, owners, |owners|), PostludeClaims(page, owners);
    var groups := RemainingGroups(page, owners);
    var rest := RestClaims(page, owners, groups, |groups|);
    ShareEither(first + second, rest);
    if Share(first + second, j, k) {
      SharedIsClaimed(first + second, j, k);
    }
  }

  lemma SharedIsClaimed(claims: seq<Claim>, j: nat, k: nat)
    requires Share(claims, j, k)
    ensures j in Claimed(claims)
  {
    var c :| c in claims && j in c.indices && k in c.indices;
    var i :| 0 <= i < |claims| && claims[i] == c;
  }
}
