/** What an augmentation reports of its regions: ids, nodes, floating, and who names them. */
module AugmentationProperties {
  import opened Wrappers
  import opened Sequences
  import opened Sorting
  import opened Text
  import L = LayoutGaps
  import P = LayoutGapProperties
  import opened Comments
  import opened CommentProperties
  import opened CommentRegions
  import opened DocumentRegions

  // ----- every claim

  /** A claim's comments stand in line order; it floats exactly when a blank line parts them from their owner. */
  ghost predicate WellMade(page: Page, owners: seq<LineOwner>, c: Claim) {
    && c.indices != [] && InLineOrder(page, c.indices)
    && (c.floating <==> c.kind == Leading && exists p: nat :: BlankBeforeOwner(page, owners, c, p))
  }

  ghost predicate BlankBeforeOwner(page: Page, owners: seq<LineOwner>, c: Claim, p: nat) {
    && p < |owners| && owners[p].id == c.ownerId
    && exists blank: nat :: (forall k :: k in c.indices ==> page.LineOf(k) < blank) && blank < owners[p].startLine
         && page.Blank(blank)
  }

  ghost predicate AllWellMade(page: Page, owners: seq<LineOwner>, claims: seq<Claim>) {
    forall c :: c in claims ==> WellMade(page, owners, c)
  }

  lemma JoinWellMade(page: Page, owners: seq<LineOwner>, a: seq<Claim>, b: seq<Claim>)
    requires AllWellMade(page, owners, a) && AllWellMade(page, owners, b)
    ensures AllWellMade(page, owners, a + b)
  {
    hide WellMade;
  }

  lemma SortedIsInOrder(page: Page, indices: seq<nat>)
    ensures InLineOrder(page, Sort(LineOrder(page), indices))
  {
    SortSorts(LineOrder(page), indices);
    var s := Sort(LineOrder(page), indices);
    hide Page.LineOf;
    forall i, j | 0 <= i < j < |s| ensures page.LineOf(s[i]) <= page.LineOf(s[j]) {
      assert LineOrder(page)(s[i], s[j]);
    }
  }

  lemma PlainClaimIsMade(page: Page, owners: seq<LineOwner>, kind: RegionKind, ownerId: string, indices: seq<nat>)
    requires kind != Leading
    ensures AllWellMade(page, owners, ClaimIf(page, kind, ownerId, indices, false))
  {
    SortedIsInOrder(page, indices);
    hide InLineOrder, LineOrder;
    assert |Sort(LineOrder(page), indices)| == |indices|;
  }

  lemma LeadingIsMade(page: Page, owners: seq<LineOwner>, p: nat, claimed: set<nat>)
    requires P.DistinctIds(owners) && p < |owners|
    ensures var leading := page.Leading(claimed, owners[p]);
            AllWellMade(page, owners,
                        ClaimIf(page, Leading, owners[p].id, leading, Floats(page, leading, owners[p])))
  {
    hide InLineOrder, LineOrder, Page.Leading, Sort, Page.Blank, Page.FirstBlank, P.DistinctIds;
    var owner := owners[p];
    var leading := page.Leading(claimed, owner);
    if leading != [] {
      LeadingIsAbove(page, claimed, owner);
      SortedIsInOrder(page, leading);
      SortKeepsMembers(LineOrder(page), leading);
      var last := leading[|leading| - 1];
      var c := Claim(Leading, owner.id, Sort(LineOrder(page), leading), Floats(page, leading, owner));
      LastIsHighest(page, claimed, owner.startLine, leading);
      assert c.indices != [] by { assert last in c.indices; }
      FloatingIsBlank(page, leading, owner);
      forall q: nat | q < |owners| && owners[q].id == owner.id ensures q == p {
        SameOwnerId(owners, p, q);
      }
      BlankBelow(page, owners, c, p, last);
    }
  }

  lemma LastIsHighest(page: Page, claimed: set<nat>, end: nat, indices: seq<nat>)
    requires TakenFrom(page, claimed, 1, end, indices) && indices != []
    ensures forall k :: k in indices ==> page.LineOf(k) <= page.LineOf(indices[|indices| - 1])
  {}

  lemma FloatingIsBlank(page: Page, leading: seq<nat>, owner: LineOwner)
    requires leading != []
    ensures Floats(page, leading, owner) <==>
            exists blank: nat :: page.LineOf(leading[|leading| - 1]) < blank < owner.startLine && page.Blank(blank)
  {
    hide Page.Blank;
    var found := page.FirstBlank(page.LineOf(leading[|leading| - 1]) + 1, owner.startLine);
    if found.Some? {
      assert page.LineOf(leading[|leading| - 1]) < found.value < owner.startLine && page.Blank(found.value);
    }
  }

  lemma BlankBelow(page: Page, owners: seq<LineOwner>, c: Claim, p: nat, last: nat)
    requires p < |owners| && owners[p].id == c.ownerId && last in c.indices
    requires forall k :: k in c.indices ==> page.LineOf(k) <= page.LineOf(last)
    ensures BlankBeforeOwner(page, owners, c, p) <==>
            exists blank: nat :: page.LineOf(last) < blank < owners[p].startLine && page.Blank(blank)
  {
    hide Page.Blank, Page.LineOf;
  }

  lemma RoundIsMade(page: Page, owners: seq<LineOwner>, p: nat, claimed: set<nat>)
    requires P.DistinctIds(owners) && p < |owners|
    ensures AllWellMade(page, owners, OwnerRound(page, owners, p, claimed))
  {
    hide AllWellMade, ClaimIf, Page.Leading, Page.Inline, Page.Trailing, Floats;
    var owner := owners[p];
    var leading := page.Leading(claimed, owner);
    var a := ClaimIf(page, Leading, owner.id, leading, Floats(page, leading, owner));
    var b := ClaimIf(page, Inline, owner.id, page.Inline(claimed, owner), false);
    LeadingIsMade(page, owners, p, claimed);
    PlainClaimIsMade(page, owners, Inline, owner.id, page.Inline(claimed, owner));
    PlainClaimIsMade(page, owners, Trailing, owner.id, page.Trailing(claimed, owner, NextOwner(owners, p)));
    JoinWellMade(page, owners, a, b);
    JoinWellMade(page, owners, a + b,
                 ClaimIf(page, Trailing, owner.id, page.Trailing(claimed, owner, NextOwner(owners, p)), false));
  }

  lemma {:induction false} OwnersAreMade(page: Page, owners: seq<LineOwner>, n: nat)
    requires P.DistinctIds(owners) && n <= |owners|
    ensures AllWellMade(page, owners, OwnerClaims(page, owners, n))
  {
    hide WellMade, OwnerRound, Claimed, P.DistinctIds;
    if n > 0 {
      var before := OwnerClaims(page, owners, n - 1);
      OwnersAreMade(page, owners, n - 1);
      RoundIsMade(page, owners, n - 1, Claimed(before));
      JoinWellMade(page, owners, before, OwnerRound(page, owners, n - 1, Claimed(before)));
    }
  }

  lemma GroupIsMade(page: Page, owners: seq<LineOwner>, group: seq<nat>, hasPreamble: bool)
    requires group != []
    ensures AllWellMade(page, owners, GroupClaims(page, owners, group, hasPreamble))
    ensures Documented(GroupClaims(page, owners, group, hasPreamble))
  {
    hide AllWellMade, ClaimIf, SplitLine, Filter, BeforeOwners, Documented, IsAbove, NotAbove, DocumentOwner;
    PlainClaimIsMade(page, owners, Orphan, DocumentOwner(Orphan), group);
    PlainClaimIsMade(page, owners, Preamble, DocumentOwner(Preamble), group);
    ClaimIsDocumented(page, Orphan, group);
    ClaimIsDocumented(page, Preamble, group);
    var split := SplitLine(page, owners, group);
    if split.Some? {
      var head, tail := Filter(group, IsAbove(page, split.value)), Filter(group, NotAbove(page, split.value));
      PlainClaimIsMade(page, owners, Preamble, DocumentOwner(Preamble), head);
      PlainClaimIsMade(page, owners, Orphan, DocumentOwner(Orphan), tail);
      JoinWellMade(page, owners, DocumentClaim(page, Preamble, head), DocumentClaim(page, Orphan, tail));
      ClaimIsDocumented(page, Preamble, head);
      ClaimIsDocumented(page, Orphan, tail);
      JoinDocumented(DocumentClaim(page, Preamble, head), DocumentClaim(page, Orphan, tail));
    }
  }

  /** Regions of the document's own kinds, under the document's own names. */
  predicate Documented(claims: seq<Claim>) {
    forall c :: c in claims ==> (c.kind == Preamble || c.kind == Orphan) && c.ownerId == DocumentOwner(c.kind)
  }

  lemma ClaimIsDocumented(page: Page, kind: RegionKind, indices: seq<nat>)
    requires kind == Preamble || kind == Orphan
    ensures Documented(DocumentClaim(page, kind, indices))
  {}

  lemma JoinDocumented(a: seq<Claim>, b: seq<Claim>)
    requires Documented(a) && Documented(b)
    ensures Documented(a + b)
  {
    hide DocumentOwner;
  }

  lemma {:induction false} RestIsMade(page: Page, owners: seq<LineOwner>, groups: seq<seq<nat>>, n: nat)
    requires n <= |groups| && forall g :: 0 <= g < |groups| ==> groups[g] != []
    ensures AllWellMade(page, owners, RestClaims(page, owners, groups, n))
    ensures Documented(RestClaims(page, owners, groups, n))
  {
    hide WellMade, GroupClaims, HasKind, DocumentOwner;
    if n > 0 {
      var before := RestClaims(page, owners, groups, n - 1);
      RestIsMade(page, owners, groups, n - 1);
      GroupIsMade(page, owners, groups[n - 1], HasKind(before, Preamble));
      JoinWellMade(page, owners, before, GroupClaims(page, owners, groups[n - 1], HasKind(before, Preamble)));
      JoinDocumented(before, GroupClaims(page, owners, groups[n - 1], HasKind(before, Preamble)));
    }
  }

  lemma ClaimsAreMade(page: Page, owners: seq<LineOwner>)
    requires P.DistinctIds(owners)
    ensures AllWellMade(page, owners, AllClaims(page, owners))
  {
    hide AllWellMade, OwnerClaims, RestClaims, Claimed, P.DistinctIds, Select, ClaimIf, DocumentOwner, RemainingGroups;
    var groups := RemainingGroups(page, owners);
    var claimed := Claimed(OwnerClaims(page, owners, |owners|));
    GroupsAreNotEmpty(page, owners);
    OwnersAreMade(page, owners, |owners|);
    PlainClaimIsMade(page, owners, Postlude, DocumentOwner(Postlude),
                     Select(|page.comments|, page.IsPostlude(claimed, owners)));
    RestIsMade(page, owners, groups, |groups|);
    JoinWellMade(page, owners, OwnerClaims(page, owners, |owners|), PostludeClaims(page, owners));
    JoinWellMade(page, owners, OwnerClaims(page, owners, |owners|) + PostludeClaims(page, owners),
                 RestClaims(page, owners, groups, |groups|));
  }

  // ----- nodes

  ghost predicate IsCommentNode(page: Page, indices: seq<nat>, node: CommentLine) {
    exists k :: k in indices && k < |page.comments| && node == CommentNode(page, k)
  }

  /** A blank line strictly between two comments of the region, with no comment of it on that line. */
  ghost predicate IsBlankNode(page: Page, indices: seq<nat>, node: CommentLine) {
    && indices != [] && page.LineOf(First(indices)) < node.lineNumber < page.LineOf(Last(indices))
    && (forall k :: k in indices ==> page.LineOf(k) != node.lineNumber)
    && page.Blank(node.lineNumber)
    && node.text == page.lines[node.lineNumber - 1] && node.normalizedContent == ""
  }

  lemma {:induction false} BlankNodesAreExact(page: Page, from: nat, end: nat, node: CommentLine)
    ensures node in BlankNodes(page, from, end) <==>
            && from <= node.lineNumber < end && page.Blank(node.lineNumber)
            && node.text == page.lines[node.lineNumber - 1] && node.normalizedContent == ""
  {
    if from < end {
      BlankNodesAreExact(page, from, end - 1, node);
    }
  }

  lemma LongerOrder(page: Page, first: seq<nat>, last: nat)
    requires InLineOrder(page, first + [last])
    ensures InLineOrder(page, first)
    ensures forall k :: k in first ==> page.LineOf(k) <= page.LineOf(Last(first)) <= page.LineOf(last)
    ensures first != [] ==> First(first) == First(first + [last])
  {
    var s := first + [last];
    assert forall i :: 0 <= i < |first| ==> s[i] == first[i];
    forall k | k in first ensures page.LineOf(k) <= page.LineOf(Last(first)) <= page.LineOf(last) {
      MemberIsBelow(page, first, last, k);
    }
  }

  lemma BlankNodeStep(page: Page, first: seq<nat>, last: nat, node: CommentLine)
    requires InLineOrder(page, first + [last]) && first != []
    ensures IsBlankNode(page, first + [last], node) <==>
            || IsBlankNode(page, first, node)
            || (&& page.LineOf(Last(first)) < node.lineNumber < page.LineOf(last) && page.Blank(node.lineNumber)
                && node.text == page.lines[node.lineNumber - 1] && node.normalizedContent == "")
  {
    LongerOrder(page, first, last);
    hide Page.Blank, Page.LineOf, InLineOrder;
    var s := first + [last];
    assert First(s) == First(first) && Last(s) == last && Last(first) in first && First(first) in first;
  }

  function Between(page: Page, first: seq<nat>, last: nat, blanks: bool): seq<CommentLine> {
    if blanks && first != [] then BlankNodes(page, page.LineOf(Last(first)) + 1, page.LineOf(last)) else []
  }

  lemma NodesStep(page: Page, first: seq<nat>, last: nat, blanks: bool)
    requires InPage(page, first + [last]) && InLineOrder(page, first + [last])
    ensures InPage(page, first) && last < |page.comments|
    ensures Nodes(page, first + [last], blanks) ==
            Nodes(page, first, blanks) + Between(page, first, last, blanks) + [CommentNode(page, last)]
  {
    hide BlankNodes, CommentNode, Page.LineOf;
    var s := first + [last];
    assert forall i :: 0 <= i < |first| ==> s[i] == first[i];
    assert s[|first|] == last && s[..|s| - 1] == first;
  }

  /** A region's nodes are its comments and, unless it is inline, the blank lines between them. */
  lemma {:induction false} NodesAreExact(page: Page, indices: seq<nat>, blanks: bool, node: CommentLine)
    requires InPage(page, indices) && InLineOrder(page, indices)
    ensures node in Nodes(page, indices, blanks) <==>
            IsCommentNode(page, indices, node) || (blanks && IsBlankNode(page, indices, node))
  {
    hide Page.LineOf, Page.Blank, InLineOrder, CommentNode, BlankNodes, IsBlankNode, IsCommentNode, Nodes, InPage;
    if indices == [] {
      NoNodes(page, blanks, node);
    } else {
      var first, last := indices[..|indices| - 1], indices[|indices| - 1];
      assert indices == first + [last];
      LongerOrder(page, first, last);
      NodesStep(page, first, last, blanks);
      NodesAreExact(page, first, blanks, node);
      CommentNodeStep(page, first, last, node);
      if first == [] {
        NoBlankNode(page, last, node);
      } else {
        BlankNodeStep(page, first, last, node);
        BlankNodesAreExact(page, page.LineOf(Last(first)) + 1, page.LineOf(last), node);
      }
    }
  }

  lemma NoNodes(page: Page, blanks: bool, node: CommentLine)
    ensures Nodes(page, [], blanks) == [] && !IsCommentNode(page, [], node) && !IsBlankNode(page, [], node)
  {}

  lemma CommentNodeStep(page: Page, first: seq<nat>, last: nat, node: CommentLine)
    requires last < |page.comments|
    ensures IsCommentNode(page, first + [last], node) <==>
            IsCommentNode(page, first, node) || node == CommentNode(page, last)
  {
    hide CommentNode;
    assert last in first + [last];
  }

  lemma NoBlankNode(page: Page, k: nat, node: CommentLine)
    ensures !IsBlankNode(page, [k], node) && !IsBlankNode(page, [], node)
  {}

  predicate NodesInOrder(nodes: seq<CommentLine>) {
    forall i, j :: 0 <= i < j < |nodes| ==> nodes[i].lineNumber <= nodes[j].lineNumber
  }

  predicate NodesIncrease(nodes: seq<CommentLine>) {
    forall i, j :: 0 <= i < j < |nodes| ==> nodes[i].lineNumber < nodes[j].lineNumber
  }

  predicate LinesIncrease(page: Page, indices: seq<nat>) {
    forall i, j :: 0 <= i < j < |indices| ==> page.LineOf(indices[i]) < page.LineOf(indices[j])
  }

  lemma {:induction false} BlankNodesIncrease(page: Page, from: nat, end: nat)
    ensures NodesIncrease(BlankNodes(page, from, end))
    ensures forall i :: 0 <= i < |BlankNodes(page, from, end)| ==>
              from <= BlankNodes(page, from, end)[i].lineNumber < end
  {
    if from < end {
      BlankNodesIncrease(page, from, end - 1);
    }
  }

  /** The nodes of a region follow the lines; no two are on one line unless two comments are. */
  lemma {:induction false} NodesFollowLines(page: Page, indices: seq<nat>, blanks: bool)
    requires InPage(page, indices) && InLineOrder(page, indices)
    ensures var nodes := Nodes(page, indices, blanks);
            && NodesInOrder(nodes) && (LinesIncrease(page, indices) ==> NodesIncrease(nodes))
            && (indices != [] <==> nodes != [])
            && (nodes != [] ==> nodes[|nodes| - 1].lineNumber == page.LineOf(Last(indices)))
  {
    hide Page.Blank, BlankNodes, Nodes, InPage, InLineOrder, LinesIncrease;
    if indices == [] {
      assert Nodes(page, indices, blanks) == [] by { NoNodes(page, blanks, CommentLine("", 0, "")); }
    } else {
      var first, last := indices[..|indices| - 1], indices[|indices| - 1];
      assert indices == first + [last];
      LongerOrder(page, first, last);
      NodesStep(page, first, last, blanks);
      NodesFollowLines(page, first, blanks);
      if LinesIncrease(page, indices) {
        LinesIncreaseStep(page, first, last);
      }
      if blanks && first != [] {
        BlankNodesIncrease(page, page.LineOf(Last(first)) + 1, page.LineOf(last));
      }
      AddNodes(Nodes(page, first, blanks), Between(page, first, last, blanks), CommentNode(page, last));
    }
  }

  lemma LinesIncreaseStep(page: Page, first: seq<nat>, last: nat)
    requires LinesIncrease(page, first + [last])
    ensures LinesIncrease(page, first) && (first != [] ==> page.LineOf(Last(first)) < page.LineOf(last))
  {
    var s := first + [last];
    assert forall i :: 0 <= i < |first| ==> s[i] == first[i];
    assert first != [] ==> page.LineOf(s[|first| - 1]) < page.LineOf(s[|first|]);
  }

  lemma AddNodes(a: seq<CommentLine>, b: seq<CommentLine>, node: CommentLine)
    requires NodesInOrder(a) && NodesIncrease(b)
    requires a == [] ==> b == []
    requires a != [] ==> a[|a| - 1].lineNumber <= node.lineNumber
    requires forall i :: 0 <= i < |b| ==> a[|a| - 1].lineNumber < b[i].lineNumber < node.lineNumber
    ensures NodesInOrder(a + b + [node])
    ensures NodesIncrease(a) && (a != [] ==> a[|a| - 1].lineNumber < node.lineNumber) ==> NodesIncrease(a + b + [node])
  {
    assert forall i :: 0 <= i < |a| ==> a[i].lineNumber <= a[|a| - 1].lineNumber;
  }

  // ----- who names which region

  /** The ids of the regions of one kind and owner, in order. */
  function IdsFor(regions: seq<Region>, kind: RegionKind, ownerId: string): seq<string> {
    Map((r: Region) => r.id, Filter(regions, (r: Region) => r.kind == kind && r.ownerId == ownerId))
  }

  function IdsOf(page: Page, claims: seq<Claim>, kind: RegionKind, ownerId: string): seq<string> {
    Map((c: Claim) => ClaimId(page, c), Filter(claims, (c: Claim) => c.kind == kind && c.ownerId == ownerId))
  }

  lemma IdsOfAppend(page: Page, a: seq<Claim>, b: seq<Claim>, kind: RegionKind, ownerId: string)
    ensures IdsOf(page, a + b, kind, ownerId) == IdsOf(page, a, kind, ownerId) + IdsOf(page, b, kind, ownerId)
  {
    hide ClaimId;
    FilterAppend(a, b, (c: Claim) => c.kind == kind && c.ownerId == ownerId);
  }

  lemma IdsOfSingle(page: Page, c: Claim, kind: RegionKind, ownerId: string)
    ensures IdsOf(page, [c], kind, ownerId) ==
            if c.kind == kind && c.ownerId == ownerId then [ClaimId(page, c)] else []
  {
    hide ClaimId;
    var keep := (c: Claim) => c.kind == kind && c.ownerId == ownerId;
    assert [c][1..] == [];
    assert Filter([c], keep) == if keep(c) then [c] else [];
  }

  lemma IdsForSnoc(regions: seq<Region>, r: Region, kind: RegionKind, ownerId: string)
    ensures IdsFor(regions + [r], kind, ownerId) ==
            IdsFor(regions, kind, ownerId) + if r.kind == kind && r.ownerId == ownerId then [r.id] else []
  {
    var keep := (r: Region) => r.kind == kind && r.ownerId == ownerId;
    FilterAppend(regions, [r], keep);
    assert [r][1..] == [];
    assert Filter([r], keep) == if keep(r) then [r] else [];
  }

  lemma {:induction false} RegionsHaveIds(page: Page, style: string, claims: seq<Claim>, regions: seq<Region>,
                                          observed: seq<Observation>, kind: RegionKind, ownerId: string)
    requires Reported(page, style, claims, regions, observed)
    ensures IdsFor(regions, kind, ownerId) == IdsOf(page, claims, kind, ownerId)
  {
    hide IdsFor, IdsOf, Nodes, RegionId, InPage;
    if claims == [] {
      NoIds(page, kind, ownerId);
    } else {
      var n := |claims| - 1;
      assert claims == claims[..n] + [claims[n]] && regions == regions[..n] + [regions[n]];
      assert ClaimFits(page, claims[n]) && regions[n] == RegionOf(page, style, claims[n]);
      RegionsHaveIds(page, style, claims[..n], regions[..n], observed[..n], kind, ownerId);
      IdsForSnoc(regions[..n], regions[n], kind, ownerId);
      IdsOfAppend(page, claims[..n], [claims[n]], kind, ownerId);
      IdsOfSingle(page, claims[n], kind, ownerId);
    }
  }

  lemma NoIds(page: Page, kind: RegionKind, ownerId: string)
    ensures IdsOf(page, [], kind, ownerId) == [] && IdsFor([], kind, ownerId) == []
  {}

  lemma IdsOfClaimIf(page: Page, kind: RegionKind, ownerId: string, indices: seq<nat>, floating: bool,
                     wanted: RegionKind, wantedOwner: string)
    ensures IdsOf(page, ClaimIf(page, kind, ownerId, indices, floating), wanted, wantedOwner) ==
            if kind == wanted && ownerId == wantedOwner then AsIds(IdIf(page, kind, indices)) else []
  {
    hide IdsOf, RegionId, LineOrder;
    if indices == [] {
      NoIds(page, wanted, wantedOwner);
    } else {
      var c := Claim(kind, ownerId, Sort(LineOrder(page), indices), floating);
      assert |c.indices| == |indices|;
      IdsOfSingle(page, c, wanted, wantedOwner);
    }
  }

  /** The id of the owner's region of that kind, if its round makes one. */
  function RoundId(page: Page, owners: seq<LineOwner>, p: nat, claimed: set<nat>, kind: RegionKind): Option<string>
    requires p < |owners|
  {
    match kind
    case Leading => IdIf(page, Leading, page.Leading(claimed, owners[p]))
    case Inline => IdIf(page, Inline, page.Inline(claimed, owners[p]))
    case Trailing => IdIf(page, Trailing, page.Trailing(claimed, owners[p], NextOwner(owners, p)))
    case _ => None
  }

  lemma IdsOfRound(page: Page, owners: seq<LineOwner>, p: nat, claimed: set<nat>, kind: RegionKind, ownerId: string)
    requires p < |owners|
    ensures IdsOf(page, OwnerRound(page, owners, p, claimed), kind, ownerId) ==
            if ownerId == owners[p].id then AsIds(RoundId(page, owners, p, claimed, kind)) else []
  {
    hide IdsOf, ClaimIf, IdIf, Page.Leading, Page.Inline, Page.Trailing, Floats, NextOwner;
    var owner := owners[p];
    var leading, inline := page.Leading(claimed, owner), page.Inline(claimed, owner);
    var trailing := page.Trailing(claimed, owner, NextOwner(owners, p));
    var a := ClaimIf(page, Leading, owner.id, leading, Floats(page, leading, owner));
    var b := ClaimIf(page, Inline, owner.id, inline, false);
    var c := ClaimIf(page, Trailing, owner.id, trailing, false);
    IdsOfClaimIf(page, Leading, owner.id, leading, Floats(page, leading, owner), kind, ownerId);
    IdsOfClaimIf(page, Inline, owner.id, inline, false, kind, ownerId);
    IdsOfClaimIf(page, Trailing, owner.id, trailing, false, kind, ownerId);
    IdsOfAppend(page, a, b, kind, ownerId);
    IdsOfAppend(page, a + b, c, kind, ownerId);
  }

  lemma {:induction false} IdsOfOwner(page: Page, owners: seq<LineOwner>, p: nat, n: nat, kind: RegionKind)
    requires P.DistinctIds(owners) && p < |owners| && n <= |owners|
    ensures IdsOf(page, OwnerClaims(page, owners, n), kind, owners[p].id) ==
            if p < n then AsIds(RoundId(page, owners, p, Before(page, owners, p), kind)) else []
  {
    hide IdsOf, RoundId, OwnerRound, Claimed, P.DistinctIds;
    if n == 0 {
      NoIds(page, kind, owners[p].id);
    } else {
      var before := OwnerClaims(page, owners, n - 1);
      IdsOfOwner(page, owners, p, n - 1, kind);
      IdsOfAppend(page, before, OwnerRound(page, owners, n - 1, Claimed(before)), kind, owners[p].id);
      IdsOfRound(page, owners, n - 1, Claimed(before), kind, owners[p].id);
      if owners[n - 1].id == owners[p].id {
        SameOwnerId(owners, p, n - 1);
      }
    }
  }

  lemma {:induction false} OtherKindsHaveNoIds(page: Page, claims: seq<Claim>, kind: RegionKind, ownerId: string)
    requires forall c :: c in claims ==> c.kind != kind
    ensures IdsOf(page, claims, kind, ownerId) == []
  {
    hide ClaimId;
    FilterKeepsNone(claims, (c: Claim) => c.kind == kind && c.ownerId == ownerId);
  }

  lemma {:induction false} OwnersHaveOwnerKinds(page: Page, owners: seq<LineOwner>, n: nat)
    requires n <= |owners|
    ensures forall c :: c in OwnerClaims(page, owners, n) ==> OfOwner(c.kind)
  {
    hide Claimed, Page.Leading, Page.Inline, Page.Trailing, Floats, NextOwner, Sort;
    if n > 0 {
      OwnersHaveOwnerKinds(page, owners, n - 1);
    }
  }

  /** An owner's regions are those of its round. */
  lemma IdsOfOwnerKind(page: Page, owners: seq<LineOwner>, p: nat, kind: RegionKind)
    requires P.DistinctIds(owners) && p < |owners| && OfOwner(kind)
    ensures IdsOf(page, AllClaims(page, owners), kind, owners[p].id) ==
            AsIds(RoundId(page, owners, p, Before(page, owners, p), kind))
  {
    hide IdsOf, RoundId, OwnerClaims, RestClaims, P.DistinctIds, RemainingGroups, Claimed, Select, Sort, WellMade;
    var groups := RemainingGroups(page, owners);
    var first, second := OwnerClaims(page, owners, |owners|), PostludeClaims(page, owners);
    GroupsAreNotEmpty(page, owners);
    var rest := RestClaims(page, owners, groups, |groups|);
    RestIsMade(page, owners, groups, |groups|);
    IdsOfOwner(page, owners, p, |owners|, kind);
    OtherKindsHaveNoIds(page, second, kind, owners[p].id);
    OtherKindsHaveNoIds(page, rest, kind, owners[p].id);
    IdsOfAppend(page, first, second, kind, owners[p].id);
    IdsOfAppend(page, first + second, rest, kind, owners[p].id);
  }

  /** For document kinds, the kind decides the owner. */
  lemma {:induction false} KindDecidesOwner(page: Page, claims: seq<Claim>, kind: RegionKind)
    requires forall c :: c in claims && c.kind == kind ==> c.ownerId == DocumentOwner(kind)
    ensures IdsOf(page, claims, kind, DocumentOwner(kind)) == IdsOfKind(page, claims, kind)
  {
    hide IdsOf, DocumentOwner, ClaimId;
    if claims == [] {
      NoIds(page, kind, DocumentOwner(kind));
    } else {
      var n := |claims| - 1;
      assert claims == claims[..n] + [claims[n]];
      KindDecidesOwner(page, claims[..n], kind);
      IdsOfAppend(page, claims[..n], [claims[n]], kind, DocumentOwner(kind));
      IdsOfSingle(page, claims[n], kind, DocumentOwner(kind));
      assert claims[n] in claims;
    }
  }

  lemma IdsOfDocumentKind(page: Page, owners: seq<LineOwner>, kind: RegionKind)
    requires kind == Preamble || kind == Postlude || kind == Orphan
    ensures forall g :: 0 <= g < |RemainingGroups(page, owners)| ==> RemainingGroups(page, owners)[g] != []
    ensures var groups := RemainingGroups(page, owners);
            IdsOf(page, AllClaims(page, owners), kind, DocumentOwner(kind)) ==
            IdsOfKind(page,
                      if kind == Postlude then PostludeClaims(page, owners)
                      else RestClaims(page, owners, groups, |groups|), kind)
  {
    hide IdsOf, IdsOfKind, OwnerClaims, RestClaims, RemainingGroups, Claimed, Select, Sort, WellMade, DocumentOwner;
    GroupsAreNotEmpty(page, owners);
    var groups := RemainingGroups(page, owners);
    var first, second := OwnerClaims(page, owners, |owners|), PostludeClaims(page, owners);
    var rest := RestClaims(page, owners, groups, |groups|);
    RestIsMade(page, owners, groups, |groups|);
    OwnersHaveOwnerKinds(page, owners, |owners|);
    OtherKindsHaveNoIds(page, first, kind, DocumentOwner(kind));
    IdsOfAppend(page, first, second, kind, DocumentOwner(kind));
    IdsOfAppend(page, first + second, rest, kind, DocumentOwner(kind));
    if kind == Postlude {
      OtherKindsHaveNoIds(page, rest, kind, DocumentOwner(kind));
      KindDecidesOwner(page, second, kind);
    } else {
      OtherKindsHaveNoIds(page, second, kind, DocumentOwner(kind));
      KindDecidesOwner(page, rest, kind);
    }
  }

  /** The layout attachment that the augmenter looks up is the owner's own. */
  lemma LayoutIsOwn(owners: seq<LineOwner>, gaps: seq<L.Gap>, p: nat)
    requires P.DistinctIds(owners) && p < |owners|
    ensures Find(LayoutAttachments(owners, gaps), (a: L.Attachment) => a.ownerId == owners[p].id) ==
            Some(L.AttachmentOf(owners[p], gaps))
  {
    hide P.DistinctIds, L.IdOfGap, L.LeadsIn, L.TrailsIn;
    var ordered := Sort(L.ByPosition(), owners);
    var layout := LayoutAttachments(owners, gaps);
    SortKeepsMembers(L.ByPosition(), owners);
    assert owners[p] in ordered;
    var i :| 0 <= i < |ordered| && ordered[i] == owners[p];
    assert layout[i].ownerId == owners[p].id;
    var found := Find(layout, (a: L.Attachment) => a.ownerId == owners[p].id);
    assert found.Some?;
    var j :| 0 <= j < |layout| && layout[j] == found.value;
    assert ordered[j] in owners;
    var q :| 0 <= q < |owners| && owners[q] == ordered[j];
    SameOwnerId(owners, p, q);
  }

  // ----- results

  /**
   * An attachment names the regions and gaps of its own owner, and nothing else: at most one region
   * of each kind, and by that kind's name.
   */
  lemma AttachmentsNameTheirRegions(page: Page, owners: seq<LineOwner>, style: string, a: Augmentation,
                                    observed: seq<Observation>, p: nat)
    requires Augmented(page, owners, style, a, observed) && P.DistinctIds(owners) && p < |owners|
    ensures var at, own, gaps := a.attachments[p], owners[p].id, L.AttachmentOf(owners[p], a.gaps);
            && at.ownerId == own
            && AsIds(at.leadingRegionId) == IdsFor(a.regions, Leading, own)
            && AsIds(at.inlineRegionId) == IdsFor(a.regions, Inline, own)
            && AsIds(at.trailingRegionId) == IdsFor(a.regions, Trailing, own)
            && at.leadingGapId == gaps.leadingGapId && at.trailingGapId == gaps.trailingGapId
  {
    hide IdsFor, IdsOf, AllClaims, RestClaims, IdsOfKind, P.DistinctIds, Reported, L.GapsOf, IdIf, LayoutAttachments,
      L.AttachmentOf, RemainingGroups, OwnerClaims, Claimed, Page.Leading, Page.Inline, Page.Trailing;
    LayoutIsOwn(owners, a.gaps, p);
    RegionsHaveIds(page, style, AllClaims(page, owners), a.regions, observed, Leading, owners[p].id);
    RegionsHaveIds(page, style, AllClaims(page, owners), a.regions, observed, Inline, owners[p].id);
    RegionsHaveIds(page, style, AllClaims(page, owners), a.regions, observed, Trailing, owners[p].id);
    IdsOfOwnerKind(page, owners, p, Leading);
    IdsOfOwnerKind(page, owners, p, Inline);
    IdsOfOwnerKind(page, owners, p, Trailing);
  }

  /** The document's own ids are those of its preamble, its postlude and its orphans, in order. */
  lemma DocumentNamesItsRegions(page: Page, owners: seq<LineOwner>, style: string, a: Augmentation,
                                observed: seq<Observation>)
    requires Augmented(page, owners, style, a, observed)
    ensures AsIds(a.preambleRegionId) == IdsFor(a.regions, Preamble, "document:preamble")
    ensures AsIds(a.postludeRegionId) == IdsFor(a.regions, Postlude, "document:postlude")
    ensures a.orphanRegionIds == IdsFor(a.regions, Orphan, "document:orphan")
  {
    hide IdsFor, IdsOf, AllClaims, RestClaims, IdsOfKind, Reported, L.GapsOf, RemainingGroups, OwnerClaims,
      PostludeClaims, DocumentOwner, AttachmentAt, LayoutAttachments;
    var claims := AllClaims(page, owners);
    DocumentNames();
    PostludeOwner();
    RegionsHaveIds(page, style, claims, a.regions, observed, Preamble, "document:preamble");
    RegionsHaveIds(page, style, claims, a.regions, observed, Postlude, "document:postlude");
    RegionsHaveIds(page, style, claims, a.regions, observed, Orphan, "document:orphan");
    IdsOfDocumentKind(page, owners, Preamble);
    IdsOfDocumentKind(page, owners, Postlude);
    IdsOfDocumentKind(page, owners, Orphan);
  }

  /**
   * A reported region names its first and last line, carries its comments and the blank lines between
   * them, and floats exactly when a blank line separates a leading region from its owner.
   */
  lemma RegionsAreExact(page: Page, owners: seq<LineOwner>, style: string, a: Augmentation, observed: seq<Observation>,
                        i: nat)
    requires Augmented(page, owners, style, a, observed) && P.DistinctIds(owners) && i < |a.regions|
    ensures |observed| == |a.regions| && observed[i].indices != []
    ensures var r, group := a.regions[i], observed[i].indices;
            && observed[i].regionId == r.id && r.style == style && InLineOrder(page, group)
            && Claim(r.kind, r.ownerId, group, r.floating) in AllClaims(page, owners)
            && r.id == "comment-region:" + r.kind.Name() + ":" + Decimal(page.LineOf(First(group))) + "-"
                       + Decimal(page.LineOf(Last(group)))
            && (forall node :: node in r.nodes <==>
                  IsCommentNode(page, group, node) || (r.kind != Inline && IsBlankNode(page, group, node)))
            && NodesInOrder(r.nodes) && (LinesIncrease(page, group) ==> NodesIncrease(r.nodes))
            && (r.floating <==> r.kind == Leading && exists p: nat ::
                  BlankBeforeOwner(page, owners, Claim(r.kind, r.ownerId, group, r.floating), p))
  {
    hide AllClaims, RestClaims, IdsOfKind, L.GapsOf, RemainingGroups, OwnerClaims, PostludeClaims, DocumentOwner,
      AttachmentAt, LayoutAttachments, P.DistinctIds, Page.LineOf, InLineOrder, Decimal, RegionKind.Name, Nodes,
      IsCommentNode, IsBlankNode, NodesInOrder, LinesIncrease, NodesIncrease, BlankBeforeOwner;
    var claims := AllClaims(page, owners);
    ClaimsAreMade(page, owners);
    var c := claims[i];
    assert c in claims && ClaimFits(page, c) && a.regions[i] == RegionOf(page, style, c);
    assert c == Claim(c.kind, c.ownerId, c.indices, c.floating);
    forall node
      ensures node in a.regions[i].nodes <==>
              IsCommentNode(page, c.indices, node) || (c.kind != Inline && IsBlankNode(page, c.indices, node))
    {
      NodesAreExact(page, c.indices, c.kind != Inline, node);
    }
    NodesFollowLines(page, c.indices, c.kind != Inline);
  }
}
