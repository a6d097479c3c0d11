/** What the line dispositions of accepted facts say about the source. */
module LineDispositionProperties {
  import opened Wrappers
  import opened Sequences
  import opened Text
  import opened LineDispositions

  // ----- what the records say

  lemma RecordNamesLine(lines: seq<string>, facts: Facts, k: nat)
    requires k < |lines|
    ensures Records(lines, facts)[k].lineNumber == k + 1 && Records(lines, facts)[k].line == lines[k]
  {}

  /** One record per physical line; together their texts are the source. */
  lemma RecordsRebuildSource(source: string, facts: Facts)
    ensures var lines := SplitInclusive(source, '\n');
            var records := Records(lines, facts);
            && |records| == |lines|
            && (forall k :: 0 <= k < |records| ==> records[k].lineNumber == k + 1 && IsLine(records[k].line, '\n'))
            && Flatten(Map((d: Disposition) => d.line, records)) == source
  {
    hide SplitInclusive, Flatten, IsLine, IsTerminated, Records;
    SplitYieldsLines(source, '\n');
    var lines := SplitInclusive(source, '\n');
    forall k | 0 <= k < |lines|
      ensures Records(lines, facts)[k].lineNumber == k + 1 && Records(lines, facts)[k].line == lines[k]
    {
      RecordNamesLine(lines, facts, k);
    }
    assert Map((d: Disposition) => d.line, Records(lines, facts)) == lines;
  }

  predicate SomeOwner(facts: Facts, n: nat) {
    exists k :: 0 <= k < |facts.owners| && facts.owners[k].Covers(n)
  }

  predicate SomeRegion(facts: Facts, n: nat, attached: bool) {
    exists k :: 0 <= k < |facts.regions| && facts.regions[k].Covers(n) && facts.regions[k].IsAttached() == attached
  }

  predicate SomeGap(facts: Facts, n: nat) {
    exists k :: 0 <= k < |facts.gaps| && facts.gaps[k].Covers(n)
  }

  /** The kind of a line follows from which facts cover it, in one order of precedence. */
  lemma KindsAreExact(lines: seq<string>, facts: Facts, n: nat)
    requires Refusal(lines, facts).None? && 1 <= n <= |lines|
    ensures var kind := Records(lines, facts)[n - 1].kind;
            && (kind == StructuralOwner <==> SomeOwner(facts, n))
            && (kind == CommentOwner <==> !SomeOwner(facts, n) && SomeRegion(facts, n, true))
            && (kind == RootRegion <==> !SomeOwner(facts, n) && SomeRegion(facts, n, false))
            && (kind == LayoutGap <==> SomeGap(facts, n))
            && (kind == Unmanaged <==> Unclaimed(facts, n))
  {
    hide GapKnown, RegionKnown, OwnerFits, RegionSits;
    FilterIsEmpty(facts.owners, OwnerCovers(n));
    FilterIsEmpty(facts.regions, RegionCovers(n));
    FilterIsEmpty(facts.gaps, GapCovers(n));
    GapsAreAlone(lines, facts, n);
    if !SomeOwner(facts, n) && facts.RegionsAt(n) != [] {
      RegionIsAlone(lines, facts, n);
    }
  }

  lemma GapsAreAlone(lines: seq<string>, facts: Facts, n: nat)
    requires GapsFit(lines, facts.owners, facts.regions, facts.gaps)
    ensures SomeGap(facts, n) ==> !SomeOwner(facts, n) && !SomeRegion(facts, n, true) && !SomeRegion(facts, n, false)
  {
    hide GapKnown;
    if SomeGap(facts, n) {
      var k :| 0 <= k < |facts.gaps| && facts.gaps[k].Covers(n);
      assert GapSits(facts.owners, facts.regions, facts.gaps[k]);
    }
  }

  lemma RegionIsAlone(lines: seq<string>, facts: Facts, n: nat)
    requires RegionsFit(|lines|, facts.owners, facts.regions)
    requires !SomeOwner(facts, n) && facts.RegionsAt(n) != []
    ensures forall k :: 0 <= k < |facts.regions| && facts.regions[k].Covers(n) ==>
              facts.regions[k] == facts.RegionsAt(n)[0]
  {
    hide RegionKnown, RegionSits;
    RegionsAtAre(facts, n);
    var first := facts.RegionsAt(n)[0];
    assert first in facts.RegionsAt(n);
    var j :| 0 <= j < |facts.regions| && facts.regions[j] == first;
    assert !Owned(facts.owners, n);
    forall k | 0 <= k < |facts.regions| && facts.regions[k].Covers(n) ensures facts.regions[k] == first {
    }
  }

  // ----- what each record says

  /** The ids of the regions that cover a line, in the order in which they were given. */
  function CoveringIds(facts: Facts, n: nat): seq<string> {
    Map((r: LineRegion) => r.id, Filter(facts.regions, (r: LineRegion) => r.startLine <= n <= r.endLine))
  }

  /** Region `k` is the last one over the line that is attached, or the last one that is not. */
  predicate IsLastOver(facts: Facts, n: nat, attached: bool, k: nat) {
    && k < |facts.regions| && facts.regions[k].ownerId.Some? == attached
    && facts.regions[k].startLine <= n <= facts.regions[k].endLine
    && forall j :: k < j < |facts.regions| && facts.regions[j].ownerId.Some? == attached ==>
         !(facts.regions[j].startLine <= n <= facts.regions[j].endLine)
  }

  lemma {:induction false} LastKindOver(regions: seq<LineRegion>, n: nat, attached: bool, k: nat)
    requires k < |regions| && regions[k].Covers(n) && regions[k].IsAttached() == attached
    requires forall j :: k < j < |regions| && regions[j].IsAttached() == attached ==> !regions[j].Covers(n)
    ensures LastKind(Filter(regions, RegionCovers(n)), attached) == Some(regions[k].kind)
    decreases |regions|
  {
    var last := |regions| - 1;
    assert regions == regions[..last] + [regions[last]];
    FilterAppend(regions[..last], [regions[last]], RegionCovers(n));
    var before := Filter(regions[..last], RegionCovers(n));
    assert [regions[last]][1..] == [];
    if regions[last].Covers(n) {
      assert (before + [regions[last]])[..|before|] == before;
    } else {
      assert before + [] == before;
    }
    if k < last {
      LastKindOver(regions[..last], n, attached, k);
    }
  }

  lemma {:induction false} NoKindOver(regions: seq<LineRegion>, attached: bool)
    ensures LastKind(regions, attached).None? <==>
            forall j :: 0 <= j < |regions| ==> regions[j].IsAttached() != attached
  {
    if regions != [] {
      NoKindOver(regions[..|regions| - 1], attached);
    }
  }

  /** A region over the line means that there is a last one. */
  lemma LastOver(facts: Facts, n: nat, attached: bool) returns (k: nat)
    requires SomeRegion(facts, n, attached)
    ensures IsLastOver(facts, n, attached, k)
  {
    k := |facts.regions| - 1;
    while !(facts.regions[k].Covers(n) && facts.regions[k].IsAttached() == attached)
      invariant k < |facts.regions|
      invariant forall j :: k < j < |facts.regions| && facts.regions[j].IsAttached() == attached ==>
                  !facts.regions[j].Covers(n)
      decreases k
    {
      if k == 0 {
        var j :| 0 <= j < |facts.regions| && facts.regions[j].Covers(n) && facts.regions[j].IsAttached() == attached;
        assert false;
      }
      k := k - 1;
    }
  }

  lemma RegionsFilterAgrees(facts: Facts, n: nat)
    ensures Map(RegionId, facts.RegionsAt(n)) == CoveringIds(facts, n)
  {
    FilterAgrees(facts.regions, RegionCovers(n), (r: LineRegion) => r.startLine <= n <= r.endLine);
  }

  lemma OwnedClaim(lines: seq<string>, facts: Facts, n: nat, owner: LineOwner)
    requires Refusal(lines, facts).None? && 1 <= n <= |lines| && owner in facts.owners && owner.Covers(n)
    ensures Records(lines, facts)[n - 1] == OwnedRecord(n, lines[n - 1], owner, facts.RegionsAt(n))
  {
    hide RegionsFit, GapsFit, OwnedRecord;
    OwnerIsUnique(|lines|, facts, owner, n);
  }

  /** An owned line names its owner, the regions over it in their order, and nothing of a gap. */
  lemma OwnedLineIsExact(lines: seq<string>, facts: Facts, n: nat, owner: LineOwner)
    requires Refusal(lines, facts).None? && 1 <= n <= |lines|
    requires owner in facts.owners && owner.startLine <= n <= owner.endLine
    ensures var r := Records(lines, facts)[n - 1];
            && r.selectionKey == "owner:" + owner.id && r.ownerId == Some(owner.id)
            && r.regionIds == CoveringIds(facts, n)
            && r.gapId == None && r.controllerOwnerId == None && r.beforeOwnerId == None && r.afterOwnerId == None
            && (r.commentKind.Some? <==> SomeRegion(facts, n, true))
            && (r.rootRegionKind.Some? <==> SomeRegion(facts, n, false))
  {
    OwnedClaim(lines, facts, n, owner);
    RegionsFilterAgrees(facts, n);
    NoKindOver(facts.RegionsAt(n), true);
    NoKindOver(facts.RegionsAt(n), false);
    hide OwnersFit, RegionsFit, GapsFit, Filter, LastKind, Records;
    RegionsAtAre(facts, n);
    forall attached: bool
      ensures (exists j :: 0 <= j < |facts.RegionsAt(n)| && facts.RegionsAt(n)[j].IsAttached() == attached) <==>
              SomeRegion(facts, n, attached)
    {
      if j :| 0 <= j < |facts.RegionsAt(n)| && facts.RegionsAt(n)[j].IsAttached() == attached {
        assert facts.RegionsAt(n)[j] in facts.regions;
      }
      if SomeRegion(facts, n, attached) {
        var k :| 0 <= k < |facts.regions| && facts.regions[k].Covers(n) && facts.regions[k].IsAttached() == attached;
        assert facts.regions[k] in facts.RegionsAt(n);
      }
    }
  }

  /** The comment kind of an owned line is that of every attached region over it, all of them the owner's own. */
  lemma OwnedLineKinds(lines: seq<string>, facts: Facts, n: nat, owner: LineOwner, k: nat)
    requires Refusal(lines, facts).None? && 1 <= n <= |lines|
    requires owner in facts.owners && owner.startLine <= n <= owner.endLine
    requires k < |facts.regions| && facts.regions[k].startLine <= n <= facts.regions[k].endLine
    ensures facts.regions[k].ownerId.Some? ==>
              && facts.regions[k].ownerId == Some(owner.id)
              && Records(lines, facts)[n - 1].commentKind == Some(facts.regions[k].kind)
    ensures IsLastOver(facts, n, false, k) ==>
              Records(lines, facts)[n - 1].rootRegionKind == Some(facts.regions[k].kind)
  {
    OwnedClaim(lines, facts, n, owner);
    hide OwnersFit, GapsFit, Filter, LastKind, Records, RegionKnown;
    if facts.regions[k].ownerId.Some? {
      assert RegionSits(facts.owners, facts.regions[k]);
      var i :| 0 <= i < |facts.owners| && facts.owners[i] == owner;
      assert facts.owners[i].startLine <= n;
      assert SomeRegion(facts, n, true);
      var last := LastOver(facts, n, true);
      LastKindOver(facts.regions, n, true, last);
      if last != k {
        assert RegionsAgree(facts.owners, facts.regions[k], facts.regions[last]);
        assert facts.regions[k].startLine <= n <= facts.regions[k].endLine && facts.regions[last].Covers(n);
      }
    } else if IsLastOver(facts, n, false, k) {
      LastKindOver(facts.regions, n, false, k);
    }
  }

  /** A line of a region outside every owner belongs to that region alone. */
  lemma RegionLineIsExact(lines: seq<string>, facts: Facts, n: nat, k: nat)
    requires Refusal(lines, facts).None? && 1 <= n <= |lines| && !SomeOwner(facts, n)
    requires k < |facts.regions| && facts.regions[k].startLine <= n <= facts.regions[k].endLine
    ensures var r, region := Records(lines, facts)[n - 1], facts.regions[k];
            && r.selectionKey == region.selectionKey && r.ownerId == region.ownerId && r.regionIds == [region.id]
            && r.commentKind == (if region.ownerId.Some? then Some(region.kind) else None)
            && r.rootRegionKind == (if region.ownerId.Some? then None else Some(region.kind))
            && r.gapId == None && r.controllerOwnerId == None && r.beforeOwnerId == None && r.afterOwnerId == None
  {
    hide OwnersFit, GapsFit, RegionKnown, RegionSits;
    FilterIsEmpty(facts.owners, OwnerCovers(n));
    FilterIsEmpty(facts.regions, RegionCovers(n));
    RegionIsAlone(lines, facts, n);
  }

  lemma TwoGapsApart(lines: seq<string>, facts: Facts, j: nat, k: nat)
    requires GapsFit(lines, facts.owners, facts.regions, facts.gaps)
    requires j < |facts.gaps| && k < |facts.gaps| && j != k
    ensures Apart(facts.gaps[j].startLine, facts.gaps[j].endLine, facts.gaps[k].startLine, facts.gaps[k].endLine)
  {
    hide GapKnown, GapSits;
    if j < k {
      assert GapsApart(facts.gaps[j], facts.gaps[k]);
    } else {
      assert GapsApart(facts.gaps[k], facts.gaps[j]);
    }
  }

  /** A line of a gap has the gap's names and no owner or comment. */
  lemma GapLineIsExact(lines: seq<string>, facts: Facts, n: nat, k: nat)
    requires Refusal(lines, facts).None? && 1 <= n <= |lines|
    requires k < |facts.gaps| && facts.gaps[k].startLine <= n <= facts.gaps[k].endLine
    ensures var r, gap := Records(lines, facts)[n - 1], facts.gaps[k];
            && r.selectionKey == gap.selectionKey && r.gapId == Some(gap.id)
            && r.controllerOwnerId == gap.controllerOwnerId
            && r.beforeOwnerId == gap.beforeOwnerId && r.afterOwnerId == gap.afterOwnerId
            && r.ownerId == None && r.regionIds == [] && r.commentKind == None && r.rootRegionKind == None
  {
    hide OwnersFit, RegionsFit, GapKnown;
    GapsAreAlone(lines, facts, n);
    FilterIsEmpty(facts.owners, OwnerCovers(n));
    FilterIsEmpty(facts.regions, RegionCovers(n));
    FilterIsEmpty(facts.gaps, GapCovers(n));
    FilterMembers(facts.gaps, GapCovers(n));
    var first := facts.GapsAt(n)[0];
    assert first in facts.GapsAt(n);
    var j :| 0 <= j < |facts.gaps| && facts.gaps[j] == first;
    if j != k {
      TwoGapsApart(lines, facts, j, k);
    }
  }

  /** An unmanaged line has its number for a key and nothing else. */
  lemma UnmanagedLineIsExact(lines: seq<string>, facts: Facts, n: nat)
    requires 1 <= n <= |lines| && Unclaimed(facts, n)
    ensures Records(lines, facts)[n - 1] ==
            Disposition(n, lines[n - 1], Unmanaged, "unmanaged:" + Decimal(n), None, [], None, None, None, None, None,
                        None)
  {
    FilterIsEmpty(facts.owners, OwnerCovers(n));
    FilterIsEmpty(facts.regions, RegionCovers(n));
    FilterIsEmpty(facts.gaps, GapCovers(n));
  }

  // ----- which facts are accepted, line by line

  predicate OwnerOn(facts: Facts, k: nat, n: nat) {
    k < |facts.owners| && facts.owners[k].startLine <= n <= facts.owners[k].endLine
  }

  predicate RegionOn(facts: Facts, k: nat, n: nat) {
    k < |facts.regions| && facts.regions[k].startLine <= n <= facts.regions[k].endLine
  }

  predicate GapOn(facts: Facts, k: nat, n: nat) {
    k < |facts.gaps| && facts.gaps[k].startLine <= n <= facts.gaps[k].endLine
  }

  ghost predicate NamesOwner(facts: Facts, id: string) {
    exists k :: 0 <= k < |facts.owners| && facts.owners[k].id == id
  }

  /** Owners are accepted when they have ids and ranges and no line has two of them. */
  lemma OwnersAccepted(lineCount: nat, facts: Facts)
    ensures OwnersFit(lineCount, facts.owners) <==>
            && (forall k :: 0 <= k < |facts.owners| ==>
                  facts.owners[k].id != "" && 1 <= facts.owners[k].startLine <= facts.owners[k].endLine <= lineCount)
            && (forall j, k :: 0 <= j < k < |facts.owners| ==> facts.owners[j].id != facts.owners[k].id)
            && (forall j: nat, k: nat, n: nat :: OwnerOn(facts, j, n) && OwnerOn(facts, k, n) ==> j == k)
  {
    if OwnersFit(lineCount, facts.owners) {
      forall j: nat, k: nat, n: nat | OwnerOn(facts, j, n) && OwnerOn(facts, k, n) ensures j == k {
        assert j < k ==> OwnersApart(facts.owners[j], facts.owners[k]);
        assert k < j ==> OwnersApart(facts.owners[k], facts.owners[j]);
      }
    }
    if (forall k :: 0 <= k < |facts.owners| ==>
          facts.owners[k].id != "" && 1 <= facts.owners[k].startLine <= facts.owners[k].endLine <= lineCount)
       && (forall j, k :: 0 <= j < k < |facts.owners| ==> facts.owners[j].id != facts.owners[k].id)
       && (forall j: nat, k: nat, n: nat :: OwnerOn(facts, j, n) && OwnerOn(facts, k, n) ==> j == k)
    {
      forall j, k | 0 <= j < k < |facts.owners| ensures OwnersApart(facts.owners[j], facts.owners[k]) {
        var n := if facts.owners[j].startLine <= facts.owners[k].startLine then facts.owners[k].startLine
                 else facts.owners[j].startLine;
        assert !(OwnerOn(facts, j, n) && OwnerOn(facts, k, n));
      }
    }
  }

  /** What a comment region says of itself. */
  predicate RegionNamed(region: LineRegion, lineCount: nat) {
    && region.id != "" && region.selectionKey != "" && 1 <= region.startLine <= region.endLine <= lineCount
    && if region.ownerId.Some? then region.kind == "leading" || region.kind == "inline" || region.kind == "trailing"
       else region.kind == "preamble" || region.kind == "postlude" || region.kind == "orphan"
  }

  /** What every line asks of the regions over it. */
  ghost predicate RegionsMeet(facts: Facts, n: nat) {
    && (forall i: nat, k: nat :: RegionOn(facts, k, n) && OwnerOn(facts, i, n) && facts.regions[k].ownerId.Some? ==>
          facts.regions[k].ownerId == Some(facts.owners[i].id))
    && (forall i: nat, k: nat :: RegionOn(facts, k, n) && OwnerOn(facts, i, n) && facts.regions[k].ownerId.None? ==>
          exists o: nat :: OwnerOn(facts, o, facts.regions[k].startLine) && OwnerOn(facts, o, facts.regions[k].endLine))
    && (forall j: nat, k: nat :: RegionOn(facts, j, n) && RegionOn(facts, k, n) && j != k ==>
          && (exists i: nat :: OwnerOn(facts, i, n))
          && (facts.regions[j].ownerId.Some? && facts.regions[k].ownerId.Some? ==>
                facts.regions[j].kind == facts.regions[k].kind))
  }

  /**
   * Comment regions are accepted when their ids differ, attached ones name owners, and every line agrees:
   * over an owned line lie only the owner's regions and root regions inside one owner, with one comment
   * kind; over any other line at most one region lies.
   */
  lemma RegionsAccepted(lineCount: nat, facts: Facts)
    requires OwnersFit(lineCount, facts.owners)
    ensures RegionsFit(lineCount, facts.owners, facts.regions) <==>
            && (forall k :: 0 <= k < |facts.regions| ==>
                  && RegionNamed(facts.regions[k], lineCount)
                  && (facts.regions[k].ownerId.Some? ==> NamesOwner(facts, facts.regions[k].ownerId.value)))
            && (forall j, k :: 0 <= j < k < |facts.regions| ==> facts.regions[j].id != facts.regions[k].id)
            && (forall n: nat :: RegionsMeet(facts, n))
  {
    if RegionsFit(lineCount, facts.owners, facts.regions) {
      FittingRegionsMeet(lineCount, facts);
    }
    if (forall k :: 0 <= k < |facts.regions| ==>
          && RegionNamed(facts.regions[k], lineCount)
          && (facts.regions[k].ownerId.Some? ==> NamesOwner(facts, facts.regions[k].ownerId.value)))
       && (forall j, k :: 0 <= j < k < |facts.regions| ==> facts.regions[j].id != facts.regions[k].id)
       && (forall n: nat :: RegionsMeet(facts, n))
    {
      MeetingRegionsFit(lineCount, facts);
    }
  }

  lemma FittingRegionsMeet(lineCount: nat, facts: Facts)
    requires OwnersFit(lineCount, facts.owners) && RegionsFit(lineCount, facts.owners, facts.regions)
    ensures forall n: nat :: RegionsMeet(facts, n)
  {
    hide OwnersFit, RegionKnown;
    forall n: nat ensures RegionsMeet(facts, n) {
      forall i: nat, k: nat | RegionOn(facts, k, n) && OwnerOn(facts, i, n)
        ensures facts.regions[k].ownerId.Some? ==> facts.regions[k].ownerId == Some(facts.owners[i].id)
        ensures facts.regions[k].ownerId.None? ==>
                  exists o: nat :: OwnerOn(facts, o, facts.regions[k].startLine)
                    && OwnerOn(facts, o, facts.regions[k].endLine)
      {
        assert RegionSits(facts.owners, facts.regions[k]);
        assert facts.regions[k].Covers(n);
        if facts.regions[k].ownerId.None? {
          var o :| 0 <= o < |facts.owners| && Contains(facts.owners[o], facts.regions[k]);
          assert OwnerOn(facts, o, facts.regions[k].startLine) && OwnerOn(facts, o, facts.regions[k].endLine);
        }
      }
      forall j: nat, k: nat | RegionOn(facts, j, n) && RegionOn(facts, k, n) && j != k
        ensures exists i: nat :: OwnerOn(facts, i, n)
        ensures facts.regions[j].ownerId.Some? && facts.regions[k].ownerId.Some? ==>
                  facts.regions[j].kind == facts.regions[k].kind
      {
        var a, b := if j < k then j else k, if j < k then k else j;
        assert RegionsAgree(facts.owners, facts.regions[a], facts.regions[b]);
        assert facts.regions[a].startLine <= n <= facts.regions[a].endLine && facts.regions[b].Covers(n);
        var i :| 0 <= i < |facts.owners| && facts.owners[i].Covers(n);
        assert OwnerOn(facts, i, n);
      }
    }
  }

  lemma MeetingRegionsFit(lineCount: nat, facts: Facts)
    requires OwnersFit(lineCount, facts.owners)
    requires forall k :: 0 <= k < |facts.regions| ==>
               && RegionNamed(facts.regions[k], lineCount)
               && (facts.regions[k].ownerId.Some? ==> NamesOwner(facts, facts.regions[k].ownerId.value))
    requires forall j, k :: 0 <= j < k < |facts.regions| ==> facts.regions[j].id != facts.regions[k].id
    requires forall n: nat :: RegionsMeet(facts, n)
    ensures RegionsFit(lineCount, facts.owners, facts.regions)
  {
    hide OwnersFit;
    forall k | 0 <= k < |facts.regions| ensures RegionSits(facts.owners, facts.regions[k]) {
      forall i, n: nat | 0 <= i < |facts.owners| && facts.owners[i].startLine <= n <= facts.owners[i].endLine
                         && facts.regions[k].Covers(n)
        ensures if facts.regions[k].IsAttached() then facts.regions[k].ownerId == Some(facts.owners[i].id)
                else Contained(facts.owners, facts.regions[k])
      {
        assert RegionsMeet(facts, n);
        assert RegionOn(facts, k, n) && OwnerOn(facts, i, n);
      }
    }
    forall j, k | 0 <= j < k < |facts.regions|
      ensures RegionsAgree(facts.owners, facts.regions[j], facts.regions[k])
    {
      forall n: nat | facts.regions[j].startLine <= n <= facts.regions[j].endLine && facts.regions[k].Covers(n)
        ensures Owned(facts.owners, n)
        ensures facts.regions[j].IsAttached() && facts.regions[k].IsAttached() ==>
                  facts.regions[j].kind == facts.regions[k].kind
      {
        assert RegionsMeet(facts, n);
        assert RegionOn(facts, j, n) && RegionOn(facts, k, n);
      }
    }
  }

  /** What a gap says of itself. */
  predicate GapNamed(gap: LineGap, lineCount: nat) {
    && gap.id != "" && gap.selectionKey != "" && 1 <= gap.startLine <= gap.endLine <= lineCount
    && (gap.kind == "preamble" || gap.kind == "interstitial" || gap.kind == "postlude")
    && (gap.beforeOwnerId.Some? || gap.afterOwnerId.Some?)
    && gap.controllerOwnerId.Some?
    && if gap.controllerSide == "before" then gap.controllerOwnerId == gap.beforeOwnerId
       else gap.controllerSide == "after" && gap.controllerOwnerId == gap.afterOwnerId
  }

  /** Gaps are accepted when they name themselves and owners, and take only blank lines that nothing else has. */
  lemma GapsAccepted(lines: seq<string>, facts: Facts)
    requires OwnersFit(|lines|, facts.owners) && RegionsFit(|lines|, facts.owners, facts.regions)
    ensures GapsFit(lines, facts.owners, facts.regions, facts.gaps) <==>
            && (forall k :: 0 <= k < |facts.gaps| ==>
                  && GapNamed(facts.gaps[k], |lines|)
                  && (facts.gaps[k].beforeOwnerId.Some? ==> NamesOwner(facts, facts.gaps[k].beforeOwnerId.value))
                  && (facts.gaps[k].afterOwnerId.Some? ==> NamesOwner(facts, facts.gaps[k].afterOwnerId.value)))
            && (forall j, k :: 0 <= j < k < |facts.gaps| ==> facts.gaps[j].id != facts.gaps[k].id)
            && (forall k: nat, n: nat :: GapOn(facts, k, n) && 1 <= n <= |lines| ==>
                  && IsBlank(lines[n - 1])
                  && (forall i: nat :: !OwnerOn(facts, i, n) && !RegionOn(facts, i, n))
                  && (forall j: nat :: GapOn(facts, j, n) ==> j == k))
  {
    if GapsFit(lines, facts.owners, facts.regions, facts.gaps) {
      FittingGapsLie(lines, facts);
    }
    if (forall k :: 0 <= k < |facts.gaps| ==>
          && GapNamed(facts.gaps[k], |lines|)
          && (facts.gaps[k].beforeOwnerId.Some? ==> NamesOwner(facts, facts.gaps[k].beforeOwnerId.value))
          && (facts.gaps[k].afterOwnerId.Some? ==> NamesOwner(facts, facts.gaps[k].afterOwnerId.value)))
       && (forall j, k :: 0 <= j < k < |facts.gaps| ==> facts.gaps[j].id != facts.gaps[k].id)
       && (forall k: nat, n: nat :: GapOn(facts, k, n) && 1 <= n <= |lines| ==>
             && IsBlank(lines[n - 1])
             && (forall i: nat :: !OwnerOn(facts, i, n) && !RegionOn(facts, i, n))
             && (forall j: nat :: GapOn(facts, j, n) ==> j == k))
    {
      LyingGapsFit(lines, facts);
    }
  }

  lemma FittingGapsLie(lines: seq<string>, facts: Facts)
    requires GapsFit(lines, facts.owners, facts.regions, facts.gaps)
    ensures forall k :: 0 <= k < |facts.gaps| ==> GapNamed(facts.gaps[k], |lines|)
    ensures forall k: nat, n: nat :: GapOn(facts, k, n) && 1 <= n <= |lines| ==>
              && IsBlank(lines[n - 1])
              && (forall i: nat :: !OwnerOn(facts, i, n) && !RegionOn(facts, i, n))
              && (forall j: nat :: GapOn(facts, j, n) ==> j == k)
  {
    hide IsBlank, IsOwner;
    forall k: nat, n: nat | GapOn(facts, k, n) && 1 <= n <= |lines|
      ensures IsBlank(lines[n - 1])
      ensures forall i: nat :: !OwnerOn(facts, i, n) && !RegionOn(facts, i, n)
      ensures forall j: nat :: GapOn(facts, j, n) ==> j == k
    {
      assert GapKnown(lines, facts.owners, facts.gaps[k]) && GapSits(facts.owners, facts.regions, facts.gaps[k]);
      forall j: nat | GapOn(facts, j, n) ensures j == k {
        if j != k {
          TwoGapsApart(lines, facts, j, k);
        }
      }
    }
  }

  lemma LyingGapsFit(lines: seq<string>, facts: Facts)
    requires OwnersFit(|lines|, facts.owners) && RegionsFit(|lines|, facts.owners, facts.regions)
    requires forall k :: 0 <= k < |facts.gaps| ==>
               && GapNamed(facts.gaps[k], |lines|)
               && (facts.gaps[k].beforeOwnerId.Some? ==> NamesOwner(facts, facts.gaps[k].beforeOwnerId.value))
               && (facts.gaps[k].afterOwnerId.Some? ==> NamesOwner(facts, facts.gaps[k].afterOwnerId.value))
    requires forall j, k :: 0 <= j < k < |facts.gaps| ==> facts.gaps[j].id != facts.gaps[k].id
    requires forall k: nat, n: nat :: GapOn(facts, k, n) && 1 <= n <= |lines| ==>
               && IsBlank(lines[n - 1])
               && (forall i: nat :: !OwnerOn(facts, i, n) && !RegionOn(facts, i, n))
               && (forall j: nat :: GapOn(facts, j, n) ==> j == k)
    ensures GapsFit(lines, facts.owners, facts.regions, facts.gaps)
  {
    hide IsBlank, RegionSits, RegionsAgree;
    forall k | 0 <= k < |facts.gaps|
      ensures GapKnown(lines, facts.owners, facts.gaps[k]) && GapSits(facts.owners, facts.regions, facts.gaps[k])
    {
      var gap := facts.gaps[k];
      forall l | gap.startLine - 1 <= l < gap.endLine ensures IsBlank(lines[l]) {
        assert GapOn(facts, k, l + 1);
      }
      forall i | 0 <= i < |facts.owners|
        ensures Apart(facts.owners[i].startLine, facts.owners[i].endLine, gap.startLine, gap.endLine)
      {
        var n := if facts.owners[i].startLine <= gap.startLine then gap.startLine else facts.owners[i].startLine;
        assert GapOn(facts, k, n) ==> !OwnerOn(facts, i, n);
      }
      forall i | 0 <= i < |facts.regions|
        ensures Apart(facts.regions[i].startLine, facts.regions[i].endLine, gap.startLine, gap.endLine)
      {
        assert RegionKnown(|lines|, facts.owners, facts.regions[i]);
        var n := if facts.regions[i].startLine <= gap.startLine then gap.startLine else facts.regions[i].startLine;
        assert GapOn(facts, k, n) ==> !RegionOn(facts, i, n);
      }
    }
    forall j, k | 0 <= j < k < |facts.gaps| ensures GapsApart(facts.gaps[j], facts.gaps[k]) {
      var n := if facts.gaps[j].startLine <= facts.gaps[k].startLine then facts.gaps[k].startLine
               else facts.gaps[j].startLine;
      assert GapOn(facts, k, n) && 1 <= n <= |lines| ==> GapOn(facts, j, n) ==> j == k;
    }
  }

  // ----- the order of the owners does not matter

  ghost predicate SameOwners(a: seq<LineOwner>, b: seq<LineOwner>) {
    forall owner :: owner in a <==> owner in b
  }

  lemma OwnerQuestionsAgree(a: seq<LineOwner>, b: seq<LineOwner>)
    requires SameOwners(a, b)
    ensures forall id :: IsOwner(a, id) ==> IsOwner(b, id)
    ensures forall region :: Contained(a, region) ==> Contained(b, region)
    ensures forall n :: Owned(a, n) ==> Owned(b, n)
  {
    forall id | IsOwner(a, id) ensures IsOwner(b, id) {
      var k :| 0 <= k < |a| && a[k].id == id;
      assert a[k] in b;
    }
    forall region | Contained(a, region) ensures Contained(b, region) {
      var k :| 0 <= k < |a| && Contains(a[k], region);
      assert a[k] in b;
    }
    forall n | Owned(a, n) ensures Owned(b, n) {
      var k :| 0 <= k < |a| && a[k].Covers(n);
      assert a[k] in b;
    }
  }

  lemma RegionSitsAgrees(a: seq<LineOwner>, b: seq<LineOwner>, region: LineRegion)
    requires SameOwners(a, b) && RegionSits(a, region)
    ensures RegionSits(b, region)
  {
    OwnerQuestionsAgree(a, b);
    forall k, n: nat | 0 <= k < |b| && b[k].startLine <= n <= b[k].endLine && region.Covers(n)
      ensures if region.IsAttached() then region.ownerId == Some(b[k].id) else Contained(b, region)
    {
      assert b[k] in a;
      var j :| 0 <= j < |a| && a[j] == b[k];
      assert a[j].startLine <= n;
    }
  }

  lemma OwnersFitPermutes(lineCount: nat, a: seq<LineOwner>, b: seq<LineOwner>)
    requires multiset(a) == multiset(b) && OwnersFit(lineCount, a)
    ensures OwnersFit(lineCount, b)
  {
    assert forall j, k :: 0 <= j < k < |a| ==> OwnersApart(a[j], a[k]) ==> a[j] != a[k];
    assert Distinct(a);
    DistinctPermutes(a, b);
    hide OwnerFits;
    forall k | 0 <= k < |b| ensures b[k] in a {
      assert b[k] in multiset(a);
    }
    forall j, k | 0 <= j < k < |b| ensures OwnersApart(b[j], b[k]) {
      var p :| 0 <= p < |a| && a[p] == b[j];
      var q :| 0 <= q < |a| && a[q] == b[k];
      assert p != q;
    }
  }

  lemma RegionsFitAgrees(lineCount: nat, a: seq<LineOwner>, b: seq<LineOwner>, regions: seq<LineRegion>)
    requires SameOwners(a, b) && RegionsFit(lineCount, a, regions)
    ensures RegionsFit(lineCount, b, regions)
  {
    OwnerQuestionsAgree(a, b);
    hide SameOwners, IsOwner, Owned, RegionSits;
    forall k | 0 <= k < |regions| ensures RegionSits(b, regions[k]) {
      RegionSitsAgrees(a, b, regions[k]);
    }
    forall k | 0 <= k < |regions| ensures RegionKnown(lineCount, b, regions[k]) {
      assert RegionKnown(lineCount, a, regions[k]);
    }
    forall j, k | 0 <= j < k < |regions| ensures RegionsAgree(b, regions[j], regions[k]) {
      assert RegionsAgree(a, regions[j], regions[k]);
    }
  }

  lemma GapsFitAgrees(lines: seq<string>, a: seq<LineOwner>, b: seq<LineOwner>, regions: seq<LineRegion>,
                      gaps: seq<LineGap>)
    requires SameOwners(a, b) && GapsFit(lines, a, regions, gaps)
    ensures GapsFit(lines, b, regions, gaps)
  {
    OwnerQuestionsAgree(a, b);
    hide IsOwner, IsBlank;
    forall g | 0 <= g < |gaps| ensures GapKnown(lines, b, gaps[g]) && GapSits(b, regions, gaps[g]) {
      assert GapKnown(lines, a, gaps[g]) && GapSits(a, regions, gaps[g]);
      forall k | 0 <= k < |b| ensures Apart(b[k].startLine, b[k].endLine, gaps[g].startLine, gaps[g].endLine) {
        assert b[k] in a;
      }
    }
  }

  lemma ClaimAgrees(lineCount: nat, facts: Facts, owners: seq<LineOwner>, n: nat, line: string)
    requires SameOwners(facts.owners, owners)
    requires OwnersFit(lineCount, facts.owners) && OwnersFit(lineCount, owners)
    ensures facts.Claim(n, line) == facts.(owners := owners).Claim(n, line)
  {
    var other := facts.(owners := owners);
    OwnersAtAre(facts, n);
    OwnersAtAre(other, n);
    hide OwnersFit;
    if facts.OwnersAt(n) != [] {
      var owner := facts.OwnersAt(n)[0];
      assert owner in facts.OwnersAt(n);
      OwnerIsUnique(lineCount, other, owner, n);
    }
  }

  /** Permuting the owners changes neither which facts are accepted nor any record. */
  lemma OwnerOrderIsIrrelevant(lines: seq<string>, facts: Facts, owners: seq<LineOwner>)
    requires multiset(owners) == multiset(facts.owners)
    ensures Refusal(lines, facts.(owners := owners)) == Refusal(lines, facts)
    ensures Refusal(lines, facts).None? ==> Records(lines, facts.(owners := owners)) == Records(lines, facts)
  {
    forall owner ensures owner in facts.owners <==> owner in owners {
      assert owner in facts.owners <==> owner in multiset(facts.owners);
      assert owner in owners <==> owner in multiset(owners);
    }
    assert SameOwners(facts.owners, owners) && SameOwners(owners, facts.owners);
    hide OwnersFit, RegionsFit, GapsFit, SameOwners, Facts.Claim;
    if OwnersFit(|lines|, facts.owners) { OwnersFitPermutes(|lines|, facts.owners, owners); }
    if OwnersFit(|lines|, owners) { OwnersFitPermutes(|lines|, owners, facts.owners); }
    if RegionsFit(|lines|, facts.owners, facts.regions) {
      RegionsFitAgrees(|lines|, facts.owners, owners, facts.regions);
    }
    if RegionsFit(|lines|, owners, facts.regions) {
      RegionsFitAgrees(|lines|, owners, facts.owners, facts.regions);
    }
    if GapsFit(lines, facts.owners, facts.regions, facts.gaps) {
      GapsFitAgrees(lines, facts.owners, owners, facts.regions, facts.gaps);
    }
    if GapsFit(lines, owners, facts.regions, facts.gaps) {
      GapsFitAgrees(lines, owners, facts.owners, facts.regions, facts.gaps);
    }
    if Refusal(lines, facts).None? {
      forall k | 0 <= k < |lines|
        ensures facts.Claim(k + 1, lines[k]) == facts.(owners := owners).Claim(k + 1, lines[k])
      {
        ClaimAgrees(|lines|, facts, owners, k + 1, lines[k]);
      }
    }
  }
}
