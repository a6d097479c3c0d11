/** What the gaps of an accepted layout say, and that the line dispositions accept them. */
module LayoutGapProperties {
  import opened Wrappers
  import opened Sequences
  import opened Sorting
  import opened Text
  import D = LineDispositions
  import opened LayoutGaps

  type LineOwner = D.LineOwner

  // ----- overlap detection

  predicate DistinctIds(owners: seq<LineOwner>) {
    forall j, k :: 0 <= j < k < |owners| ==> owners[j].id != owners[k].id
  }

  predicate OwnersDisjoint(owners: seq<LineOwner>) {
    forall j, k :: 0 <= j < k < |owners| ==>
      D.Apart(owners[j].startLine, owners[j].endLine, owners[k].startLine, owners[k].endLine)
  }

  lemma SortedMembers(owners: seq<LineOwner>)
    ensures forall owner :: owner in Sort(ByPosition(), owners) <==> owner in owners
  {
    SortKeepsMembers(ByPosition(), owners);
  }

  lemma OwnersInRangeMeans(lineCount: nat, owners: seq<LineOwner>, owner: LineOwner)
    requires OwnersInRange(lineCount, owners) && owner in owners
    ensures D.OwnerFits(lineCount, owner)
  {}

  lemma {:induction false} NeighboursReach(lineCount: nat, ordered: seq<LineOwner>, j: nat, k: nat)
    requires OwnersInRange(lineCount, ordered) && NeighboursApart(ordered) && j < k < |ordered|
    ensures ordered[j].endLine < ordered[k].startLine
  {
    if j + 1 < k {
      NeighboursReach(lineCount, ordered, j, k - 1);
      OwnersInRangeMeans(lineCount, ordered, ordered[k - 1]);
    }
    assert ordered[k - 1].endLine < ordered[k - 1 + 1].startLine;
  }

  /** Disjointness of ranges that are not empty does not depend on the order of the owners. */
  lemma DisjointPermutes(lineCount: nat, a: seq<LineOwner>, b: seq<LineOwner>)
    requires multiset(a) == multiset(b) && OwnersInRange(lineCount, a) && OwnersDisjoint(a)
    ensures OwnersDisjoint(b)
  {
    forall j, k | 0 <= j < k < |a| ensures a[j] != a[k] {
      OwnersInRangeMeans(lineCount, a, a[j]);
    }
    assert Distinct(a);
    DistinctPermutes(a, b);
    forall k | 0 <= k < |b| ensures b[k] in a {
      assert b[k] in multiset(a);
    }
    forall j, k | 0 <= j < k < |b|
      ensures D.Apart(b[j].startLine, b[j].endLine, b[k].startLine, b[k].endLine)
    {
      var p :| 0 <= p < |a| && a[p] == b[j];
      var q :| 0 <= q < |a| && a[q] == b[k];
      assert b[j] != b[k];
    }
  }

  /** Comparing sorted neighbours finds every overlap, and nothing else. */
  lemma NeighboursDecideOverlap(lineCount: nat, owners: seq<LineOwner>)
    requires OwnersInRange(lineCount, owners)
    ensures NeighboursApart(Sort(ByPosition(), owners)) <==> OwnersDisjoint(owners)
  {
    var ordered := Sort(ByPosition(), owners);
    SortedMembers(owners);
    SortSorts(ByPosition(), owners);
    forall k | 0 <= k < |ordered| ensures D.OwnerFits(lineCount, ordered[k]) {
      assert ordered[k] in owners;
      OwnersInRangeMeans(lineCount, owners, ordered[k]);
    }
    if NeighboursApart(ordered) {
      forall j, k | 0 <= j < k < |ordered|
        ensures D.Apart(ordered[j].startLine, ordered[j].endLine, ordered[k].startLine, ordered[k].endLine)
      {
        NeighboursReach(lineCount, ordered, j, k);
      }
      DisjointPermutes(lineCount, ordered, owners);
    }
    if OwnersDisjoint(owners) {
      DisjointPermutes(lineCount, owners, ordered);
      forall k | 0 <= k < |ordered| - 1 ensures ordered[k].endLine < ordered[k + 1].startLine {
        assert ByPosition()(ordered[k], ordered[k + 1]);
        assert D.OwnerFits(lineCount, ordered[k + 1]);
      }
    }
  }

  // ----- which blank runs become gaps

  predicate TouchesOwner(owners: seq<LineOwner>, run: Run) {
    exists k :: 0 <= k < |owners| && (owners[k].endLine + 1 == run.startLine || owners[k].startLine == run.endLine + 1)
  }

  predicate TouchesComment(boundaries: seq<Boundary>, run: Run) {
    exists k :: 0 <= k < |boundaries| &&
      (TrailingAbove(run.startLine)(boundaries[k]) || LeadingBelow(run.endLine)(boundaries[k]))
  }

  predicate BoundariesHaveOwners(owners: seq<LineOwner>, boundaries: seq<Boundary>) {
    forall k :: 0 <= k < |boundaries| ==> Find(owners, HasId(boundaries[k].ownerId)).Some?
  }

  lemma EdgesAreTouched(owners: seq<LineOwner>, boundaries: seq<Boundary>, run: Run)
    requires BoundariesHaveOwners(owners, boundaries)
    ensures Touches(EdgesOf(owners, boundaries, run)) <==> TouchesOwner(owners, run) || TouchesComment(boundaries, run)
  {
    var edges := EdgesOf(owners, boundaries, run);
    if edges.structuralBefore.Some? {
      var k :| 0 <= k < |owners| && owners[k] == edges.structuralBefore.value;
      assert TouchesOwner(owners, run);
    }
    if edges.structuralAfter.Some? {
      var k :| 0 <= k < |owners| && owners[k] == edges.structuralAfter.value;
      assert TouchesOwner(owners, run);
    }
    var above, below := FindLast(boundaries, TrailingAbove(run.startLine)), Find(boundaries, LeadingBelow(run.endLine));
    if above.Some? {
      var k :| 0 <= k < |boundaries| && boundaries[k] == above.value;
      assert TouchesComment(boundaries, run);
    }
    if below.Some? {
      var k :| 0 <= k < |boundaries| && boundaries[k] == below.value;
      assert TouchesComment(boundaries, run);
    }
    if TouchesOwner(owners, run) {
      var k :| 0 <= k < |owners| && (owners[k].endLine + 1 == run.startLine || owners[k].startLine == run.endLine + 1);
      assert EndsAbove(run.startLine)(owners[k]) || StartsBelow(run.endLine)(owners[k]);
    }
  }

  /** A blank run becomes a gap just when it touches an owner or an attached comment. */
  lemma GapPerTouchedRun(lines: seq<string>, owners: seq<LineOwner>, boundaries: seq<Boundary>, gaps: seq<Gap>,
                         run: Run)
    requires GapsOf(lines, owners, boundaries, gaps) && BoundariesHaveOwners(owners, boundaries)
    ensures (exists gap :: gap in gaps && gap.startLine == run.startLine && gap.endLine == run.endLine) <==>
            IsBlankRun(lines, run) && (TouchesOwner(owners, run) || TouchesComment(boundaries, run))
  {
    hide EdgesOf, TouchesOwner, TouchesComment, GapsAscend;
    EdgesAreTouched(owners, boundaries, run);
    if IsBlankRun(lines, run) && Touches(EdgesOf(owners, boundaries, run)) {
      var gap := GapAt(lines, EdgesOf(owners, boundaries, run), run);
      assert IsGapOf(lines, owners, boundaries, gap);
    }
    if gap :| gap in gaps && gap.startLine == run.startLine && gap.endLine == run.endLine {
      assert IsGapOf(lines, owners, boundaries, gap);
      assert run == Run(gap.startLine, gap.endLine);
    }
  }

  // ----- edges and controllers name real neighbours

  /** The owner that ends right above the gap, or whose trailing comment does. */
  predicate IsBefore(owners: seq<LineOwner>, boundaries: seq<Boundary>, gap: Gap, id: string) {
    exists owner :: owner in owners && owner.id == id &&
      (owner.endLine + 1 == gap.startLine ||
       exists b :: b in boundaries && b.ownerId == id && TrailingAbove(gap.startLine)(b))
  }

  /** The owner that starts right below the gap, or whose leading comment does. */
  predicate IsAfter(owners: seq<LineOwner>, boundaries: seq<Boundary>, gap: Gap, id: string) {
    exists owner :: owner in owners && owner.id == id &&
      (owner.startLine == gap.endLine + 1 ||
       exists b :: b in boundaries && b.ownerId == id && LeadingBelow(gap.endLine)(b))
  }

  /** Every edge is adjacent, the kind says which edges there are, and the controller is one of them. */
  lemma GapsNameNeighbours(lines: seq<string>, owners: seq<LineOwner>, boundaries: seq<Boundary>, gaps: seq<Gap>,
                           gap: Gap)
    requires GapsOf(lines, owners, boundaries, gaps) && gap in gaps
    ensures gap.beforeOwnerId.Some? ==> IsBefore(owners, boundaries, gap, gap.beforeOwnerId.value)
    ensures gap.afterOwnerId.Some? ==> IsAfter(owners, boundaries, gap, gap.afterOwnerId.value)
    ensures gap.kind == "preamble" <==> gap.beforeOwnerId.None?
    ensures gap.kind == "postlude" <==> gap.afterOwnerId.None?
    ensures gap.kind == "interstitial" <==> gap.beforeOwnerId.Some? && gap.afterOwnerId.Some?
    ensures gap.controllerSide in ["before", "after"]
    ensures gap.ControllerOwnerId().Some?
  {
    assert IsGapOf(lines, owners, boundaries, gap);
    var edges := EdgesOf(owners, boundaries, Run(gap.startLine, gap.endLine));
    assert "preamble"[1] == 'r' && "postlude"[1] == 'o' && "interstitial"[1] == 'n';
    hide IsBlankRun, AllBlank;
    BeforeIsThere(owners, boundaries, gap, edges);
    AfterIsThere(owners, boundaries, gap, edges);
  }

  lemma BeforeIsThere(owners: seq<LineOwner>, boundaries: seq<Boundary>, gap: Gap, edges: Edges)
    requires edges == EdgesOf(owners, boundaries, Run(gap.startLine, gap.endLine))
    ensures edges.Before().Some? ==> IsBefore(owners, boundaries, gap, edges.Before().value.id)
  {
    if edges.structuralBefore.Some? {
      assert edges.structuralBefore.value in owners;
    } else if edges.commentBefore.Some? {
      var b := FindLast(boundaries, TrailingAbove(gap.startLine)).value;
      assert edges.commentBefore.value in owners && b in boundaries;
      assert HasId(b.ownerId)(edges.commentBefore.value);
    }
  }

  lemma AfterIsThere(owners: seq<LineOwner>, boundaries: seq<Boundary>, gap: Gap, edges: Edges)
    requires edges == EdgesOf(owners, boundaries, Run(gap.startLine, gap.endLine))
    ensures edges.After().Some? ==> IsAfter(owners, boundaries, gap, edges.After().value.id)
  {
    if edges.structuralAfter.Some? {
      assert edges.structuralAfter.value in owners;
    } else if edges.commentAfter.Some? {
      var b := Find(boundaries, LeadingBelow(gap.endLine)).value;
      assert edges.commentAfter.value in owners && b in boundaries;
      assert HasId(b.ownerId)(edges.commentAfter.value);
    }
  }

  // ----- which neighbour each edge names, and which one controls the gap

  /** Boundary `k` is the last trailing comment that ends right above the gap. */
  predicate IsCommentAbove(boundaries: seq<Boundary>, gap: Gap, k: nat) {
    && k < |boundaries| && boundaries[k].kind == "trailing" && boundaries[k].endLine + 1 == gap.startLine
    && forall j :: k < j < |boundaries| ==>
         !(boundaries[j].kind == "trailing" && boundaries[j].endLine + 1 == gap.startLine)
  }

  /** Boundary `k` is the first leading comment that starts right below the gap. */
  predicate IsCommentBelow(boundaries: seq<Boundary>, gap: Gap, k: nat) {
    && k < |boundaries| && boundaries[k].kind == "leading" && boundaries[k].startLine == gap.endLine + 1
    && forall j :: 0 <= j < k ==>
         !(boundaries[j].kind == "leading" && boundaries[j].startLine == gap.endLine + 1)
  }

  predicate OwnerAbove(owners: seq<LineOwner>, gap: Gap) {
    exists o :: o in owners && o.endLine + 1 == gap.startLine
  }

  predicate OwnerBelow(owners: seq<LineOwner>, gap: Gap) {
    exists o :: o in owners && o.startLine == gap.endLine + 1
  }

  predicate CommentEndsAbove(boundaries: seq<Boundary>, gap: Gap) {
    exists b :: b in boundaries && b.kind == "trailing" && b.endLine + 1 == gap.startLine
  }

  predicate CommentStartsBelow(boundaries: seq<Boundary>, gap: Gap) {
    exists b :: b in boundaries && b.kind == "leading" && b.startLine == gap.endLine + 1
  }

  predicate Accepted(lines: seq<string>, owners: seq<LineOwner>, boundaries: seq<Boundary>) {
    OwnersInRange(|lines|, owners) && OwnersDisjoint(owners) && BoundariesHaveOwners(owners, boundaries)
  }

  lemma BoundaryOwner(owners: seq<LineOwner>, boundaries: seq<Boundary>, boundary: Boundary)
    requires BoundariesHaveOwners(owners, boundaries) && boundary in boundaries
    ensures IdOf(OwnerOf(owners, Some(boundary))) == Some(boundary.ownerId)
  {
    var k :| 0 <= k < |boundaries| && boundaries[k] == boundary;
    assert Find(owners, HasId(boundaries[k].ownerId)).Some?;
  }

  lemma StructuralEdges(lines: seq<string>, owners: seq<LineOwner>, boundaries: seq<Boundary>, gap: Gap)
    requires Accepted(lines, owners, boundaries)
    ensures var edges := EdgesOf(owners, boundaries, Run(gap.startLine, gap.endLine));
            && (forall o :: o in owners && o.endLine + 1 == gap.startLine ==> edges.structuralBefore == Some(o))
            && (forall o :: o in owners && o.startLine == gap.endLine + 1 ==> edges.structuralAfter == Some(o))
            && (edges.structuralBefore.Some? <==> OwnerAbove(owners, gap))
            && (edges.structuralAfter.Some? <==> OwnerBelow(owners, gap))
  {
    var edges := EdgesOf(owners, boundaries, Run(gap.startLine, gap.endLine));
    hide OwnersInRange, OwnersDisjoint, Find, FindLast, BoundariesHaveOwners;
    forall o | o in owners && o.endLine + 1 == gap.startLine ensures edges.structuralBefore == Some(o) {
      var k :| 0 <= k < |owners| && owners[k] == o;
      assert EndsAbove(gap.startLine)(owners[k]);
      SameLine(|lines|, owners, o, edges.structuralBefore.value);
    }
    forall o | o in owners && o.startLine == gap.endLine + 1 ensures edges.structuralAfter == Some(o) {
      var k :| 0 <= k < |owners| && owners[k] == o;
      assert StartsBelow(gap.endLine)(owners[k]);
      SameLine(|lines|, owners, o, edges.structuralAfter.value);
    }
  }

  lemma CommentEdges(owners: seq<LineOwner>, boundaries: seq<Boundary>, gap: Gap)
    requires BoundariesHaveOwners(owners, boundaries)
    ensures var edges := EdgesOf(owners, boundaries, Run(gap.startLine, gap.endLine));
            && (forall k: nat :: IsCommentAbove(boundaries, gap, k) ==>
                  IdOf(edges.commentBefore) == Some(boundaries[k].ownerId))
            && (forall k: nat :: IsCommentBelow(boundaries, gap, k) ==>
                  IdOf(edges.commentAfter) == Some(boundaries[k].ownerId))
            && (edges.commentBefore.Some? <==> CommentEndsAbove(boundaries, gap))
            && (edges.commentAfter.Some? <==> CommentStartsBelow(boundaries, gap))
  {
    var edges := EdgesOf(owners, boundaries, Run(gap.startLine, gap.endLine));
    var above, below := FindLast(boundaries, TrailingAbove(gap.startLine)), Find(boundaries, LeadingBelow(gap.endLine));
    hide BoundariesHaveOwners, Find, FindLast;
    forall k: nat | IsCommentAbove(boundaries, gap, k)
      ensures IdOf(edges.commentBefore) == Some(boundaries[k].ownerId)
    {
      FindLastIsLast(boundaries, TrailingAbove(gap.startLine), k);
      BoundaryOwner(owners, boundaries, boundaries[k]);
    }
    forall k: nat | IsCommentBelow(boundaries, gap, k)
      ensures IdOf(edges.commentAfter) == Some(boundaries[k].ownerId)
    {
      FindIsFirst(boundaries, LeadingBelow(gap.endLine), k);
      BoundaryOwner(owners, boundaries, boundaries[k]);
    }
    if above.Some? {
      BoundaryOwner(owners, boundaries, above.value);
      assert TrailingAbove(gap.startLine)(above.value);
    }
    if below.Some? {
      BoundaryOwner(owners, boundaries, below.value);
      assert LeadingBelow(gap.endLine)(below.value);
    }
    forall b | b in boundaries
      ensures b.kind == "trailing" && b.endLine + 1 == gap.startLine ==> above.Some?
      ensures b.kind == "leading" && b.startLine == gap.endLine + 1 ==> below.Some?
    {
      var k :| 0 <= k < |boundaries| && boundaries[k] == b;
      assert above.None? ==> !TrailingAbove(gap.startLine)(boundaries[k]);
      assert below.None? ==> !LeadingBelow(gap.endLine)(boundaries[k]);
    }
  }

  /**
   * The edges of a gap: the owner that ends right above it, or else the owner of the last trailing
   * comment that does; the owner that starts right below it, or else the owner of the first leading
   * comment that does; nobody otherwise.
   */
  lemma EdgesAreExact(lines: seq<string>, owners: seq<LineOwner>, boundaries: seq<Boundary>, gaps: seq<Gap>, gap: Gap)
    requires GapsOf(lines, owners, boundaries, gaps) && gap in gaps && Accepted(lines, owners, boundaries)
    ensures forall o :: o in owners && o.endLine + 1 == gap.startLine ==> gap.beforeOwnerId == Some(o.id)
    ensures forall o :: o in owners && o.startLine == gap.endLine + 1 ==> gap.afterOwnerId == Some(o.id)
    ensures !OwnerAbove(owners, gap) ==>
              forall k: nat :: IsCommentAbove(boundaries, gap, k) ==> gap.beforeOwnerId == Some(boundaries[k].ownerId)
    ensures !OwnerBelow(owners, gap) ==>
              forall k: nat :: IsCommentBelow(boundaries, gap, k) ==> gap.afterOwnerId == Some(boundaries[k].ownerId)
    ensures gap.beforeOwnerId.Some? <==> OwnerAbove(owners, gap) || CommentEndsAbove(boundaries, gap)
    ensures gap.afterOwnerId.Some? <==> OwnerBelow(owners, gap) || CommentStartsBelow(boundaries, gap)
  {
    hide EdgesOf, OwnersInRange, OwnersDisjoint, BoundariesHaveOwners, OwnerAbove, OwnerBelow, IsCommentAbove,
      IsCommentBelow, IsBlankRun;
    assert IsGapOf(lines, owners, boundaries, gap);
    StructuralEdges(lines, owners, boundaries, gap);
    CommentEdges(owners, boundaries, gap);
  }

  /**
   * Who controls a gap: the owner that starts right below it; without one, the owner that ends right
   * above it, whatever comment stands below; without either, the owner of the leading comment below,
   * and at last the owner of the trailing comment above.
   */
  lemma ControllerIsExact(lines: seq<string>, owners: seq<LineOwner>, boundaries: seq<Boundary>, gaps: seq<Gap>,
                          gap: Gap)
    requires GapsOf(lines, owners, boundaries, gaps) && gap in gaps && Accepted(lines, owners, boundaries)
    ensures forall o :: o in owners && o.startLine == gap.endLine + 1 ==>
              gap.controllerSide == "after" && gap.ControllerOwnerId() == Some(o.id)
    ensures !OwnerBelow(owners, gap) ==>
              forall o :: o in owners && o.endLine + 1 == gap.startLine ==>
                gap.controllerSide == "before" && gap.ControllerOwnerId() == Some(o.id)
    ensures !OwnerBelow(owners, gap) && !OwnerAbove(owners, gap) ==>
              forall k: nat :: IsCommentBelow(boundaries, gap, k) ==>
                gap.controllerSide == "after" && gap.ControllerOwnerId() == Some(boundaries[k].ownerId)
    ensures !OwnerBelow(owners, gap) && !OwnerAbove(owners, gap) && !CommentStartsBelow(boundaries, gap) ==>
              forall k: nat :: IsCommentAbove(boundaries, gap, k) ==>
                gap.controllerSide == "before" && gap.ControllerOwnerId() == Some(boundaries[k].ownerId)
  {
    hide EdgesOf, OwnersInRange, OwnersDisjoint, BoundariesHaveOwners, OwnerAbove, OwnerBelow, IsCommentAbove,
      IsCommentBelow, IsBlankRun;
    assert IsGapOf(lines, owners, boundaries, gap);
    assert "after"[0] == 'a' && "before"[0] == 'b';
    StructuralEdges(lines, owners, boundaries, gap);
    CommentEdges(owners, boundaries, gap);
  }

  /** An accepted layout meets the premises of these statements, and sorting keeps its owners. */
  lemma AcceptedLayout(lines: seq<string>, owners: seq<LineOwner>, boundaries: seq<Boundary>)
    requires Refusal(|lines|, owners, boundaries).None?
    ensures Accepted(lines, Sort(ByPosition(), owners), boundaries)
    ensures forall o :: o in Sort(ByPosition(), owners) <==> o in owners
  {
    var ordered := Sort(ByPosition(), owners);
    SortedMembers(owners);
    assert OwnersInRange(|lines|, ordered) by {
      forall k | 0 <= k < |ordered| ensures D.OwnerFits(|lines|, ordered[k]) {
        assert ordered[k] in owners;
      }
    }
    forall j, k | 0 <= j < k < |ordered|
      ensures D.Apart(ordered[j].startLine, ordered[j].endLine, ordered[k].startLine, ordered[k].endLine)
    {
      NeighboursReach(|lines|, ordered, j, k);
    }
    forall k | 0 <= k < |boundaries| ensures Find(ordered, HasId(boundaries[k].ownerId)).Some? {
      assert BoundaryFits(|lines|, ordered, boundaries[k]);
    }
  }

  // ----- one gap on each side of an owner

  lemma SameOwner(owners: seq<LineOwner>, a: LineOwner, b: LineOwner)
    requires DistinctIds(owners) && a in owners && b in owners && a.id == b.id
    ensures a == b
  {
    var j :| 0 <= j < |owners| && owners[j] == a;
    var k :| 0 <= k < |owners| && owners[k] == b;
  }

  /** Without comment boundaries, no owner has two leading or two trailing gaps. */
  lemma OneGapPerSide(lines: seq<string>, owners: seq<LineOwner>, gaps: seq<Gap>, i: nat, j: nat)
    requires GapsOf(lines, owners, [], gaps) && DistinctIds(owners) && i < j < |gaps|
    ensures gaps[i].afterOwnerId.Some? ==> gaps[i].afterOwnerId != gaps[j].afterOwnerId
    ensures gaps[i].beforeOwnerId.Some? ==> gaps[i].beforeOwnerId != gaps[j].beforeOwnerId
  {
    assert gaps[i] in gaps && gaps[j] in gaps;
    GapsNameNeighbours(lines, owners, [], gaps, gaps[i]);
    GapsNameNeighbours(lines, owners, [], gaps, gaps[j]);
    GapIsInRange(lines, owners, gaps, gaps[j]);
    hide GapsOf, IsGapOf, DistinctIds;
    assert gaps[i].endLine < gaps[j].startLine by { Ascending(lines, owners, gaps, i, j); }
    GapIsInRange(lines, owners, gaps, gaps[i]);
    if gaps[i].afterOwnerId.Some? {
      OwnerDecidesGap(owners, gaps[i], gaps[j], gaps[i].afterOwnerId.value);
    }
    if gaps[i].beforeOwnerId.Some? {
      OwnerDecidesGap(owners, gaps[i], gaps[j], gaps[i].beforeOwnerId.value);
    }
  }

  /** Two gaps that touch the same owner on the same side touch the same line. */
  lemma OwnerDecidesGap(owners: seq<LineOwner>, a: Gap, b: Gap, id: string)
    requires DistinctIds(owners)
    ensures IsAfter(owners, [], a, id) && IsAfter(owners, [], b, id) ==> a.endLine == b.endLine
    ensures IsBefore(owners, [], a, id) && IsBefore(owners, [], b, id) ==> a.startLine == b.startLine
  {
    forall o, p | o in owners && p in owners && o.id == id && p.id == id ensures o == p {
      SameOwner(owners, o, p);
    }
  }

  lemma Ascending(lines: seq<string>, owners: seq<LineOwner>, gaps: seq<Gap>, i: nat, j: nat)
    requires GapsOf(lines, owners, [], gaps) && i < j < |gaps|
    ensures gaps[i].endLine < gaps[j].startLine
  {}

  lemma GapIsInRange(lines: seq<string>, owners: seq<LineOwner>, gaps: seq<Gap>, gap: Gap)
    requires GapsOf(lines, owners, [], gaps) && gap in gaps
    ensures 1 <= gap.startLine <= gap.endLine <= |lines|
  {
    assert IsGapOf(lines, owners, [], gap);
  }

  // ----- attachments

  lemma {:induction false} DecimalIsDigits(n: nat)
    ensures forall k :: 0 <= k < |Decimal(n)| ==> '0' <= Decimal(n)[k] <= '9'
  {
    if n >= 10 {
      DecimalIsDigits(n / 10);
    }
  }

  lemma SplitAtDash(a: string, b: string)
    requires '-' !in a
    ensures FirstIndex(a + "-" + b, '-') == |a|
  {
    assert (a + "-" + b)[..|a|] == a;
    FirstIndexIs(a + "-" + b, '-', |a|);
  }

  /** A gap id names its run. */
  lemma GapIdsAreDistinct(a: Run, b: Run)
    ensures GapId(a) == GapId(b) <==> a == b
  {
    if GapId(a) == GapId(b) {
      var n := |"layout-gap:"|;
      var restA, restB := Decimal(a.startLine) + "-" + Decimal(a.endLine),
          Decimal(b.startLine) + "-" + Decimal(b.endLine);
      assert GapId(a)[n..] == restA && GapId(b)[n..] == restB;
      DecimalIsDigits(a.startLine);
      DecimalIsDigits(b.startLine);
      SplitAtDash(Decimal(a.startLine), Decimal(a.endLine));
      SplitAtDash(Decimal(b.startLine), Decimal(b.endLine));
      var m := FirstIndex(restA, '-');
      assert restA[..m] == Decimal(a.startLine) && restA[m + 1..] == Decimal(a.endLine);
      assert restB[..m] == Decimal(b.startLine) && restB[m + 1..] == Decimal(b.endLine);
      DecimalInjective(a.startLine, b.startLine);
      DecimalInjective(a.endLine, b.endLine);
    }
  }

  lemma SameEnd(lines: seq<string>, owners: seq<LineOwner>, gaps: seq<Gap>, a: Gap, b: Gap)
    requires GapsOf(lines, owners, [], gaps) && a in gaps && b in gaps
    ensures a.endLine == b.endLine || a.startLine == b.startLine ==> a == b
  {
    GapIsInRange(lines, owners, gaps, a);
    GapIsInRange(lines, owners, gaps, b);
    var i :| 0 <= i < |gaps| && gaps[i] == a;
    var j :| 0 <= j < |gaps| && gaps[j] == b;
    hide IsGapOf;
  }

  lemma SameLine(lineCount: nat, owners: seq<LineOwner>, a: LineOwner, b: LineOwner)
    requires OwnersInRange(lineCount, owners) && OwnersDisjoint(owners) && a in owners && b in owners
    ensures a.startLine == b.startLine || a.endLine == b.endLine ==> a == b
  {
    OwnersInRangeMeans(lineCount, owners, a);
    OwnersInRangeMeans(lineCount, owners, b);
    var j :| 0 <= j < |owners| && owners[j] == a;
    var k :| 0 <= k < |owners| && owners[k] == b;
  }

  /** The gap of a run that ends right above an owner leads that owner. */
  lemma RunAboveLeads(lines: seq<string>, owners: seq<LineOwner>, gaps: seq<Gap>, owner: LineOwner, run: Run)
    requires GapsOf(lines, owners, [], gaps) && OwnersInRange(|lines|, owners) && OwnersDisjoint(owners)
    requires owner in owners && IsBlankRun(lines, run) && run.endLine + 1 == owner.startLine
    ensures exists gap :: gap in gaps && gap.startLine == run.startLine && gap.endLine == run.endLine
                          && gap.id == GapId(run) && LeadsIn(owner.id)(gap)
  {
    var edges := EdgesOf(owners, [], run);
    var k :| 0 <= k < |owners| && owners[k] == owner;
    assert StartsBelow(run.endLine)(owners[k]);
    SameLine(|lines|, owners, owner, edges.structuralAfter.value);
    assert IsGapOf(lines, owners, [], GapAt(lines, edges, run));
  }

  /** The gap of a run that starts right below an owner trails that owner. */
  lemma RunBelowTrails(lines: seq<string>, owners: seq<LineOwner>, gaps: seq<Gap>, owner: LineOwner, run: Run)
    requires GapsOf(lines, owners, [], gaps) && OwnersInRange(|lines|, owners) && OwnersDisjoint(owners)
    requires owner in owners && IsBlankRun(lines, run) && owner.endLine + 1 == run.startLine
    ensures exists gap :: gap in gaps && gap.startLine == run.startLine && gap.endLine == run.endLine
                          && gap.id == GapId(run) && TrailsIn(owner.id)(gap)
  {
    var edges := EdgesOf(owners, [], run);
    var k :| 0 <= k < |owners| && owners[k] == owner;
    assert EndsAbove(run.startLine)(owners[k]);
    SameLine(|lines|, owners, owner, edges.structuralBefore.value);
    assert IsGapOf(lines, owners, [], GapAt(lines, edges, run));
  }

  lemma FoundGap(gaps: seq<Gap>, p: Gap -> bool, gap: Gap)
    requires gap in gaps && p(gap)
    ensures Find(gaps, p).Some? && Find(gaps, p).value in gaps && p(Find(gaps, p).value)
  {
    var k :| 0 <= k < |gaps| && gaps[k] == gap;
  }

  /** An owner's leading gap is that of a blank run just when the run ends right above it; likewise trailing. */
  lemma AttachmentsAreExact(lines: seq<string>, owners: seq<LineOwner>, gaps: seq<Gap>, owner: LineOwner, run: Run)
    requires GapsOf(lines, owners, [], gaps) && OwnersInRange(|lines|, owners) && OwnersDisjoint(owners)
    requires DistinctIds(owners) && owner in owners && IsBlankRun(lines, run)
    ensures AttachmentOf(owner, gaps).leadingGapId == Some(GapId(run)) <==> run.endLine + 1 == owner.startLine
    ensures AttachmentOf(owner, gaps).trailingGapId == Some(GapId(run)) <==> owner.endLine + 1 == run.startLine
  {
    hide IsBlankRun, OwnersInRange, OwnersDisjoint, DistinctIds, EdgesOf, GapsOf, GapId;
    if run.endLine + 1 == owner.startLine {
      RunAboveLeads(lines, owners, gaps, owner, run);
      var gap :| gap in gaps && gap.startLine == run.startLine && gap.endLine == run.endLine
                 && gap.id == GapId(run) && LeadsIn(owner.id)(gap);
      FoundGap(gaps, LeadsIn(owner.id), gap);
      GapNamesOwner(lines, owners, gaps, owner, gap);
      GapNamesOwner(lines, owners, gaps, owner, Find(gaps, LeadsIn(owner.id)).value);
      SameEnd(lines, owners, gaps, gap, Find(gaps, LeadsIn(owner.id)).value);
    }
    if owner.endLine + 1 == run.startLine {
      RunBelowTrails(lines, owners, gaps, owner, run);
      var gap :| gap in gaps && gap.startLine == run.startLine && gap.endLine == run.endLine
                 && gap.id == GapId(run) && TrailsIn(owner.id)(gap);
      FoundGap(gaps, TrailsIn(owner.id), gap);
      GapNamesOwner(lines, owners, gaps, owner, gap);
      GapNamesOwner(lines, owners, gaps, owner, Find(gaps, TrailsIn(owner.id)).value);
      SameEnd(lines, owners, gaps, gap, Find(gaps, TrailsIn(owner.id)).value);
    }
    if AttachmentOf(owner, gaps).leadingGapId == Some(GapId(run)) {
      GapNamesOwner(lines, owners, gaps, owner, Find(gaps, LeadsIn(owner.id)).value);
      GapNamesRun(lines, owners, gaps, Find(gaps, LeadsIn(owner.id)).value, run);
    }
    if AttachmentOf(owner, gaps).trailingGapId == Some(GapId(run)) {
      GapNamesOwner(lines, owners, gaps, owner, Find(gaps, TrailsIn(owner.id)).value);
      GapNamesRun(lines, owners, gaps, Find(gaps, TrailsIn(owner.id)).value, run);
    }
  }

  /** Of several gaps that name an owner on a side, which only comments can cause, the first is attached. */
  lemma FirstGapIsAttached(owner: LineOwner, gaps: seq<Gap>, k: nat)
    requires k < |gaps|
    ensures gaps[k].afterOwnerId == Some(owner.id)
            && (forall j :: 0 <= j < k ==> gaps[j].afterOwnerId != Some(owner.id)) ==>
              AttachmentOf(owner, gaps).leadingGapId == Some(gaps[k].id)
    ensures gaps[k].beforeOwnerId == Some(owner.id)
            && (forall j :: 0 <= j < k ==> gaps[j].beforeOwnerId != Some(owner.id)) ==>
              AttachmentOf(owner, gaps).trailingGapId == Some(gaps[k].id)
    ensures AttachmentOf(owner, gaps).leadingGapId.Some? ==>
              exists gap :: gap in gaps && gap.afterOwnerId == Some(owner.id)
    ensures AttachmentOf(owner, gaps).trailingGapId.Some? ==>
              exists gap :: gap in gaps && gap.beforeOwnerId == Some(owner.id)
  {
    if gaps[k].afterOwnerId == Some(owner.id)
       && (forall j :: 0 <= j < k ==> gaps[j].afterOwnerId != Some(owner.id)) {
      FindIsFirst(gaps, LeadsIn(owner.id), k);
    }
    if gaps[k].beforeOwnerId == Some(owner.id)
       && (forall j :: 0 <= j < k ==> gaps[j].beforeOwnerId != Some(owner.id)) {
      FindIsFirst(gaps, TrailsIn(owner.id), k);
    }
  }

  /** An owner has a leading gap just when the line above it is blank and its own first line is not. */
  lemma LeadingGapIsBlankLineAbove(lines: seq<string>, owners: seq<LineOwner>, gaps: seq<Gap>, owner: LineOwner)
    requires GapsOf(lines, owners, [], gaps) && OwnersInRange(|lines|, owners) && OwnersDisjoint(owners)
    requires DistinctIds(owners) && owner in owners
    ensures 1 <= owner.startLine <= |lines|
    ensures AttachmentOf(owner, gaps).leadingGapId.Some? <==>
            owner.startLine > 1 && IsBlank(lines[owner.startLine - 2]) && !IsBlank(lines[owner.startLine - 1])
  {
    OwnersInRangeMeans(|lines|, owners, owner);
    hide OwnersInRange, OwnersDisjoint, DistinctIds, EdgesOf, GapsOf, GapId, IsBlank;
    var found := Find(gaps, LeadsIn(owner.id));
    if found.Some? {
      GapNamesOwner(lines, owners, gaps, owner, found.value);
      GapIsBlankRun(lines, owners, gaps, found.value);
    }
    if owner.startLine > 1 && IsBlank(lines[owner.startLine - 2]) && !IsBlank(lines[owner.startLine - 1]) {
      var run := BlankLineIsInRun(lines, owner.startLine - 2);
      AttachmentsAreExact(lines, owners, gaps, owner, run);
    }
  }

  lemma GapIsBlankRun(lines: seq<string>, owners: seq<LineOwner>, gaps: seq<Gap>, gap: Gap)
    requires GapsOf(lines, owners, [], gaps) && gap in gaps
    ensures IsBlankRun(lines, Run(gap.startLine, gap.endLine))
  {
    assert IsGapOf(lines, owners, [], gap);
  }

  /** The owner that a gap names on a side is next to the gap on that side. */
  lemma GapNamesOwner(lines: seq<string>, owners: seq<LineOwner>, gaps: seq<Gap>, owner: LineOwner, gap: Gap)
    requires GapsOf(lines, owners, [], gaps) && gap in gaps && DistinctIds(owners) && owner in owners
    ensures LeadsIn(owner.id)(gap) ==> gap.endLine + 1 == owner.startLine
    ensures TrailsIn(owner.id)(gap) ==> owner.endLine + 1 == gap.startLine
  {
    GapsNameNeighbours(lines, owners, [], gaps, gap);
    hide GapsOf;
    forall o | o in owners && o.id == owner.id ensures o == owner {
      SameOwner(owners, o, owner);
    }
  }

  lemma GapNamesRun(lines: seq<string>, owners: seq<LineOwner>, gaps: seq<Gap>, gap: Gap, run: Run)
    requires GapsOf(lines, owners, [], gaps) && gap in gaps && gap.id == GapId(run)
    ensures gap.startLine == run.startLine && gap.endLine == run.endLine
  {
    assert IsGapOf(lines, owners, [], gap);
    GapIdsAreDistinct(Run(gap.startLine, gap.endLine), run);
  }

  // ----- the line dispositions accept these gaps

  function Edge(id: Option<string>): string {
    if id.Some? then id.value else "root"
  }

  /** The gap as `source_line_dispositions_from_augmentations` passes it on. */
  function AsLineGap(gap: Gap): D.LineGap {
    D.LineGap(gap.id, "gap:" + gap.kind + ":" + Edge(gap.beforeOwnerId) + ":" + Edge(gap.afterOwnerId),
              gap.kind, gap.startLine, gap.endLine, gap.beforeOwnerId, gap.afterOwnerId,
              gap.controllerSide, gap.ControllerOwnerId())
  }

  /** The controller check accepts every gap of an accepted layout. */
  lemma GapIsKnown(lines: seq<string>, owners: seq<LineOwner>, boundaries: seq<Boundary>, gaps: seq<Gap>, gap: Gap)
    requires GapsOf(lines, Sort(ByPosition(), owners), boundaries, gaps) && gap in gaps
    ensures D.GapKnown(lines, owners, AsLineGap(gap))
  {
    var ordered := Sort(ByPosition(), owners);
    GapsNameNeighbours(lines, ordered, boundaries, gaps, gap);
    assert IsGapOf(lines, ordered, boundaries, gap);
    SortedMembers(owners);
    GapLinesAreBlank(lines, gap);
    assert gap.id != "" && AsLineGap(gap).selectionKey != "" by { KeysAreNotEmpty(gap); }
    hide GapsOf, IsGapOf, IsBlankRun, IsBlank, Sort, ByPosition, GapId, D.IsOwner, EdgesOf, GapAt;
    if gap.beforeOwnerId.Some? {
      EdgeIsOwner(owners, ordered, boundaries, gap, gap.beforeOwnerId.value);
    }
    if gap.afterOwnerId.Some? {
      EdgeIsOwner(owners, ordered, boundaries, gap, gap.afterOwnerId.value);
    }
  }

  lemma KeysAreNotEmpty(gap: Gap)
    ensures AsLineGap(gap).selectionKey != ""
  {
    assert AsLineGap(gap).selectionKey[0] == 'g';
  }

  lemma EdgeIsOwner(owners: seq<LineOwner>, ordered: seq<LineOwner>, boundaries: seq<Boundary>, gap: Gap, id: string)
    requires forall owner :: owner in ordered <==> owner in owners
    ensures IsBefore(ordered, boundaries, gap, id) || IsAfter(ordered, boundaries, gap, id) ==> D.IsOwner(owners, id)
  {
    if IsBefore(ordered, boundaries, gap, id) || IsAfter(ordered, boundaries, gap, id) {
      var o :| o in ordered && o.id == id;
      NamedIsOwner(owners, o);
    }
  }

  lemma NamedIsOwner(owners: seq<LineOwner>, owner: LineOwner)
    requires owner in owners
    ensures D.IsOwner(owners, owner.id)
  {
    var k :| 0 <= k < |owners| && owners[k] == owner;
  }

  lemma GapLinesAreBlank(lines: seq<string>, gap: Gap)
    requires IsBlankRun(lines, Run(gap.startLine, gap.endLine))
    ensures D.ValidRange(gap.startLine, gap.endLine, |lines|)
    ensures forall k :: gap.startLine - 1 <= k < gap.endLine ==> IsBlank(lines[k])
  {}

  predicate GapsClearOfOwners(owners: seq<LineOwner>, gaps: seq<Gap>) {
    forall g, k :: 0 <= g < |gaps| && 0 <= k < |owners| ==>
      D.Apart(owners[k].startLine, owners[k].endLine, gaps[g].startLine, gaps[g].endLine)
  }

  /** Accepted owners with distinct ids, and their gaps, are refused only where a gap reaches into an owner. */
  lemma GapsAreAccepted(lines: seq<string>, owners: seq<LineOwner>, boundaries: seq<Boundary>, gaps: seq<Gap>)
    requires Refusal(|lines|, owners, boundaries).None? && DistinctIds(owners)
    requires GapsOf(lines, Sort(ByPosition(), owners), boundaries, gaps)
    ensures D.Refusal(lines, D.Facts(owners, [], Map(AsLineGap, gaps))).None? <==> GapsClearOfOwners(owners, gaps)
  {
    NeighboursDecideOverlap(|lines|, owners);
    assert D.OwnersFit(|lines|, owners);
    assert D.RegionsFit(|lines|, owners, []);
    var passed := Map(AsLineGap, gaps);
    forall g | 0 <= g < |passed| ensures D.GapKnown(lines, owners, passed[g]) {
      GapIsKnown(lines, owners, boundaries, gaps, gaps[g]);
    }
    forall i, j | 0 <= i < j < |passed| ensures D.GapsApart(passed[i], passed[j]) {
      GapsStayApart(lines, Sort(ByPosition(), owners), boundaries, gaps, i, j);
    }
    hide D.GapKnown, D.OwnersFit, D.RegionsFit, D.GapsApart, GapsOf, OwnersInRange, NeighboursApart, BoundaryFits;
    if GapsClearOfOwners(owners, gaps) {
      assert forall g :: 0 <= g < |passed| ==> D.GapSits(owners, [], passed[g]);
    }
    if D.GapsFit(lines, owners, [], passed) {
      assert forall g :: 0 <= g < |passed| ==> D.GapSits(owners, [], passed[g]);
    }
  }

  lemma GapsStayApart(lines: seq<string>, owners: seq<LineOwner>, boundaries: seq<Boundary>, gaps: seq<Gap>, i: nat,
                      j: nat)
    requires GapsOf(lines, owners, boundaries, gaps) && i < j < |gaps|
    ensures D.GapsApart(AsLineGap(gaps[i]), AsLineGap(gaps[j]))
  {
    assert IsGapOf(lines, owners, boundaries, gaps[i]);
    assert IsGapOf(lines, owners, boundaries, gaps[j]);
    GapIdsAreDistinct(Run(gaps[i].startLine, gaps[i].endLine), Run(gaps[j].startLine, gaps[j].endLine));
  }

  /** No blank run next to one owner reaches into another one. */
  ghost predicate TouchingRunsClear(lines: seq<string>, owners: seq<LineOwner>) {
    forall run, k :: IsBlankRun(lines, run) && TouchesOwner(owners, run) && 0 <= k < |owners| ==>
      D.Apart(owners[k].startLine, owners[k].endLine, run.startLine, run.endLine)
  }

  /**
   * Owners with distinct ids and the gaps between them are accepted as line dispositions if and only
   * if no blank run next to an owner reaches into an owner.
   */
  lemma ClearRunsAreAccepted(lines: seq<string>, owners: seq<LineOwner>, gaps: seq<Gap>)
    requires Refusal(|lines|, owners, []).None? && DistinctIds(owners)
    requires GapsOf(lines, Sort(ByPosition(), owners), [], gaps)
    ensures D.Refusal(lines, D.Facts(owners, [], Map(AsLineGap, gaps))).None? <==> TouchingRunsClear(lines, owners)
  {
    hide D.Refusal, Refusal, GapsOf, IsBlankRun, TouchesOwner, D.Apart, Sort, ByPosition, DistinctIds;
    GapsAreAccepted(lines, owners, [], gaps);
    if GapsClearOfOwners(owners, gaps) {
      forall run, k | IsBlankRun(lines, run) && TouchesOwner(owners, run) && 0 <= k < |owners|
        ensures D.Apart(owners[k].startLine, owners[k].endLine, run.startLine, run.endLine)
      {
        GapsAreTouchingRuns(lines, owners, gaps, run);
        var gap :| gap in gaps && gap.startLine == run.startLine && gap.endLine == run.endLine;
        var g :| 0 <= g < |gaps| && gaps[g] == gap;
      }
    }
    if TouchingRunsClear(lines, owners) {
      forall g, k | 0 <= g < |gaps| && 0 <= k < |owners|
        ensures D.Apart(owners[k].startLine, owners[k].endLine, gaps[g].startLine, gaps[g].endLine)
      {
        assert gaps[g] in gaps;
        GapsAreTouchingRuns(lines, owners, gaps, Run(gaps[g].startLine, gaps[g].endLine));
      }
    }
  }

  lemma GapsAreTouchingRuns(lines: seq<string>, owners: seq<LineOwner>, gaps: seq<Gap>, run: Run)
    requires GapsOf(lines, Sort(ByPosition(), owners), [], gaps)
    ensures (exists gap :: gap in gaps && gap.startLine == run.startLine && gap.endLine == run.endLine) <==>
            IsBlankRun(lines, run) && TouchesOwner(owners, run)
  {
    var ordered := Sort(ByPosition(), owners);
    SortedMembers(owners);
    hide GapsOf, IsBlankRun, TouchesOwner;
    GapPerTouchedRun(lines, ordered, [], gaps, run);
    TouchingPermutes(owners, ordered, run);
    TouchingPermutes(ordered, owners, run);
  }

  lemma TouchingPermutes(a: seq<LineOwner>, b: seq<LineOwner>, run: Run)
    requires forall owner :: owner in a ==> owner in b
    ensures TouchesOwner(a, run) ==> TouchesOwner(b, run)
  {
    if TouchesOwner(a, run) {
      var k :| 0 <= k < |a| && (a[k].endLine + 1 == run.startLine || a[k].startLine == run.endLine + 1);
      assert a[k] in b;
    }
  }

  /** Owners that neither start nor end with a blank line. */
  predicate FirmEdges(lines: seq<string>, owners: seq<LineOwner>) {
    forall k :: 0 <= k < |owners| ==>
      && 1 <= owners[k].startLine <= owners[k].endLine <= |lines|
      && !IsBlank(lines[owners[k].startLine - 1]) && !IsBlank(lines[owners[k].endLine - 1])
  }

  /** Then no gap reaches into an owner, so everything the augmenter reports is accepted. */
  lemma FirmOwnersAreAccepted(lines: seq<string>, owners: seq<LineOwner>, gaps: seq<Gap>)
    requires Refusal(|lines|, owners, []).None? && DistinctIds(owners) && FirmEdges(lines, owners)
    requires GapsOf(lines, Sort(ByPosition(), owners), [], gaps)
    ensures D.Refusal(lines, D.Facts(owners, [], Map(AsLineGap, gaps))).None?
  {
    var ordered := Sort(ByPosition(), owners);
    NeighboursDecideOverlap(|lines|, owners);
    SortedMembers(owners);
    assert OwnersInRange(|lines|, owners) && OwnersDisjoint(owners);
    hide GapsOf, OwnersInRange, OwnersDisjoint, FirmEdges, D.Refusal, D.Apart, ByPosition, DistinctIds;
    forall g, k | 0 <= g < |gaps| && 0 <= k < |owners|
      ensures D.Apart(owners[k].startLine, owners[k].endLine, gaps[g].startLine, gaps[g].endLine)
    {
      var neighbour := Neighbour(lines, ordered, gaps, gaps[g]);
      GapIsBlankRun(lines, ordered, gaps, gaps[g]);
      GapLinesAreBlank(lines, gaps[g]);
      FirmOwnerIsClear(lines, owners, gaps[g], neighbour, owners[k]);
    }
    GapsAreAccepted(lines, owners, [], gaps);
  }

  /** Without comment boundaries, every gap has an owner right next to it. */
  lemma Neighbour(lines: seq<string>, owners: seq<LineOwner>, gaps: seq<Gap>, gap: Gap) returns (neighbour: LineOwner)
    requires GapsOf(lines, owners, [], gaps) && gap in gaps
    ensures neighbour in owners
    ensures neighbour.endLine + 1 == gap.startLine || neighbour.startLine == gap.endLine + 1
  {
    GapsNameNeighbours(lines, owners, [], gaps, gap);
    hide GapsOf;
    neighbour :| neighbour in owners &&
      (neighbour.endLine + 1 == gap.startLine || neighbour.startLine == gap.endLine + 1);
  }

  lemma FirmOwnerIsClear(lines: seq<string>, owners: seq<LineOwner>, gap: Gap, neighbour: LineOwner, owner: LineOwner)
    requires OwnersInRange(|lines|, owners) && OwnersDisjoint(owners) && FirmEdges(lines, owners)
    requires neighbour in owners && owner in owners
    requires 1 <= gap.startLine <= gap.endLine <= |lines|
    requires forall k :: gap.startLine - 1 <= k < gap.endLine ==> IsBlank(lines[k])
    requires neighbour.endLine + 1 == gap.startLine || neighbour.startLine == gap.endLine + 1
    ensures D.Apart(owner.startLine, owner.endLine, gap.startLine, gap.endLine)
  {
    var j :| 0 <= j < |owners| && owners[j] == owner;
    var k :| 0 <= k < |owners| && owners[k] == neighbour;
    assert !IsBlank(lines[owner.startLine - 1]) && !IsBlank(lines[owner.endLine - 1]);
    assert D.OwnerFits(|lines|, neighbour);
    hide IsBlank;
  }

  // ----- an owner that starts with a blank line

  function ThreeLines(): seq<string> { ["a", "", "b"] }

  function TwoOwners(): seq<LineOwner> { [D.LineOwner("A", 1, 1), D.LineOwner("B", 2, 3)] }

  lemma TwoOwnersAreAccepted()
    ensures Sort(ByPosition(), TwoOwners()) == TwoOwners()
    ensures Refusal(3, TwoOwners(), []).None? && DistinctIds(TwoOwners()) && D.OwnersFit(3, TwoOwners())
  {
    var owners := TwoOwners();
    assert owners[0].id[0] == 'A' && owners[1].id[0] == 'B';
    SortKeepsSorted(ByPosition(), owners);
    hide Sort;
  }

  lemma SecondLineIsRun()
    ensures IsBlankRun(ThreeLines(), Run(2, 2)) && TouchesOwner(TwoOwners(), Run(2, 2))
  {
    var lines := ThreeLines();
    assert lines[0][0] == 'a' && lines[2][0] == 'b' && lines[1] == "";
    assert !IsWhitespace(lines[0][0]) && !IsWhitespace(lines[2][0]);
    assert TwoOwners()[0].endLine + 1 == 2;
  }

  /** The layout of these owners is accepted, but its one gap reaches into the second owner and is refused. */
  lemma BlankFirstLineIsRefused(gaps: seq<Gap>)
    requires GapsOf(ThreeLines(), Sort(ByPosition(), TwoOwners()), [], gaps)
    ensures Refusal(3, TwoOwners(), []).None?
    ensures D.Refusal(ThreeLines(), D.Facts(TwoOwners(), [], Map(AsLineGap, gaps))) == Some(D.GapFault)
  {
    hide Sort, GapsOf, IsBlankRun, TouchesOwner, ByPosition, Refusal, DistinctIds;
    TwoOwnersAreAccepted();
    SecondLineIsRun();
    GapPerTouchedRun(ThreeLines(), TwoOwners(), [], gaps, Run(2, 2));
    var gap :| gap in gaps && gap.startLine == 2 && gap.endLine == 2;
    var g :| 0 <= g < |gaps| && gaps[g] == gap;
    hide D.OwnersFit, D.GapsFit;
    GapsAreAccepted(ThreeLines(), TwoOwners(), [], gaps);
    assert !D.Apart(TwoOwners()[1].startLine, TwoOwners()[1].endLine, gaps[g].startLine, gaps[g].endLine);
    assert D.RegionsFit(3, TwoOwners(), []);
  }
}
