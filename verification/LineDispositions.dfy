/** One disposition for every physical line, from owners, comment regions and blank gaps. */
module LineDispositions {
  import opened Wrappers
  import opened Sequences
  import opened Text

  // ----- the inputs

  datatype LineOwner = LineOwner(id: string, startLine: nat, endLine: nat) {
    predicate Covers(n: nat) { startLine <= n <= endLine }
  }

  datatype LineRegion = LineRegion(
    id: string, selectionKey: string, ownerId: Option<string>, kind: string, startLine: nat, endLine: nat)
  {
    predicate Covers(n: nat) { startLine <= n <= endLine }

    /** Attached to an owner; a region that is not belongs to the root. */
    predicate IsAttached() { ownerId.Some? }
  }

  datatype LineGap = LineGap(
    id: string, selectionKey: string, kind: string, startLine: nat, endLine: nat,
    beforeOwnerId: Option<string>, afterOwnerId: Option<string>,
    controllerSide: string, controllerOwnerId: Option<string>)
  {
    predicate Covers(n: nat) { startLine <= n <= endLine }
  }

  datatype LineKind = StructuralOwner | CommentOwner | RootRegion | LayoutGap | Unmanaged

  datatype Disposition = Disposition(
    lineNumber: nat,
    line: string,
    kind: LineKind,
    selectionKey: string,
    ownerId: Option<string>,
    regionIds: seq<string>,
    commentKind: Option<string>,
    gapId: Option<string>,
    controllerOwnerId: Option<string>,
    beforeOwnerId: Option<string>,
    afterOwnerId: Option<string>,
    rootRegionKind: Option<string>)

  function EmptyRecord(n: nat, line: string): Disposition {
    Disposition(n, line, Unmanaged, Numbered("unmanaged:", n), None, [], None, None, None, None, None, None)
  }

  // ----- what a line is, given all the facts about it

  function OwnerCovers(n: nat): LineOwner -> bool {
    (owner: LineOwner) => owner.Covers(n)
  }

  function RegionCovers(n: nat): LineRegion -> bool {
    (region: LineRegion) => region.Covers(n)
  }

  function GapCovers(n: nat): LineGap -> bool {
    (gap: LineGap) => gap.Covers(n)
  }

  function RegionId(region: LineRegion): string { region.id }

  /** The kind of the last region that is attached, or of the last one that is not. */
  function LastKind(regions: seq<LineRegion>, attached: bool): Option<string> {
    if regions == [] then None
    else
      var last := regions[|regions| - 1];
      if last.IsAttached() == attached then Some(last.kind) else LastKind(regions[..|regions| - 1], attached)
  }

  function OwnedRecord(n: nat, line: string, owner: LineOwner, over: seq<LineRegion>): Disposition {
    EmptyRecord(n, line).(
      kind := StructuralOwner, selectionKey := "owner:" + owner.id, ownerId := Some(owner.id),
      regionIds := Map(RegionId, over), commentKind := LastKind(over, true), rootRegionKind := LastKind(over, false))
  }

  function RegionRecord(n: nat, line: string, region: LineRegion): Disposition {
    EmptyRecord(n, line).(
      kind := if region.IsAttached() then CommentOwner else RootRegion,
      selectionKey := region.selectionKey, ownerId := region.ownerId, regionIds := [region.id],
      commentKind := if region.IsAttached() then Some(region.kind) else None,
      rootRegionKind := if region.IsAttached() then None else Some(region.kind))
  }

  function GapRecord(n: nat, line: string, gap: LineGap): Disposition {
    EmptyRecord(n, line).(
      kind := LayoutGap, selectionKey := gap.selectionKey, gapId := Some(gap.id),
      controllerOwnerId := gap.controllerOwnerId,
      beforeOwnerId := gap.beforeOwnerId, afterOwnerId := gap.afterOwnerId)
  }

  datatype Facts = Facts(owners: seq<LineOwner>, regions: seq<LineRegion>, gaps: seq<LineGap>) {
    function OwnersAt(n: nat): seq<LineOwner> { Filter(owners, OwnerCovers(n)) }
    function RegionsAt(n: nat): seq<LineRegion> { Filter(regions, RegionCovers(n)) }
    function GapsAt(n: nat): seq<LineGap> { Filter(gaps, GapCovers(n)) }

    /** The claim on a line, if there is one: an owner, else a region, else a gap. */
    function Claim(n: nat, line: string): Option<Disposition> {
      if OwnersAt(n) != [] then Some(OwnedRecord(n, line, OwnersAt(n)[0], RegionsAt(n)))
      else if RegionsAt(n) != [] then Some(RegionRecord(n, line, RegionsAt(n)[0]))
      else if GapsAt(n) != [] then Some(GapRecord(n, line, GapsAt(n)[0]))
      else None
    }
  }

  function Records(lines: seq<string>, facts: Facts): (records: seq<Disposition>)
    ensures |records| == |lines|
  {
    seq(|lines|, k requires 0 <= k < |lines| =>
      match facts.Claim(k + 1, lines[k])
      case Some(record) => record
      case None => EmptyRecord(k + 1, lines[k]))
  }

  // ----- which facts are accepted

  predicate ValidRange(startLine: nat, endLine: nat, lineCount: nat) {
    1 <= startLine <= endLine <= lineCount
  }

  predicate Apart(aStart: nat, aEnd: nat, bStart: nat, bEnd: nat) {
    aEnd < bStart || bEnd < aStart
  }

  predicate OwnerFits(lineCount: nat, owner: LineOwner) {
    owner.id != "" && ValidRange(owner.startLine, owner.endLine, lineCount)
  }

  predicate OwnersApart(a: LineOwner, b: LineOwner) {
    a.id != b.id && Apart(a.startLine, a.endLine, b.startLine, b.endLine)
  }

  /** Owners have identities and lines of their own. */
  predicate OwnersFit(lineCount: nat, owners: seq<LineOwner>) {
    && (forall k :: 0 <= k < |owners| ==> OwnerFits(lineCount, owners[k]))
    && (forall j, k :: 0 <= j < k < |owners| ==> OwnersApart(owners[j], owners[k]))
  }

  predicate IsOwner(owners: seq<LineOwner>, id: string) {
    exists k :: 0 <= k < |owners| && owners[k].id == id
  }

  predicate Contains(owner: LineOwner, region: LineRegion) {
    region.startLine >= owner.startLine && region.endLine <= owner.endLine
  }

  predicate Contained(owners: seq<LineOwner>, region: LineRegion) {
    exists k :: 0 <= k < |owners| && Contains(owners[k], region)
  }

  predicate RegionKnown(lineCount: nat, owners: seq<LineOwner>, region: LineRegion) {
    && region.id != "" && region.selectionKey != ""
    && ValidRange(region.startLine, region.endLine, lineCount)
    && match region.ownerId
       case Some(owner) => IsOwner(owners, owner) && region.kind in ["leading", "inline", "trailing"]
       case None => region.kind in ["preamble", "postlude", "orphan"]
  }

  /** On owned lines only the owner's own regions, and root regions that lie inside one owner. */
  predicate RegionSits(owners: seq<LineOwner>, region: LineRegion) {
    forall k, n: nat :: 0 <= k < |owners| && owners[k].startLine <= n <= owners[k].endLine && region.Covers(n) ==>
      if region.IsAttached() then region.ownerId == Some(owners[k].id) else Contained(owners, region)
  }

  predicate Owned(owners: seq<LineOwner>, n: nat) {
    exists k :: 0 <= k < |owners| && owners[k].Covers(n)
  }

  /** Two regions meet only on owned lines, and attached ones only with the same kind. */
  predicate RegionsAgree(owners: seq<LineOwner>, a: LineRegion, b: LineRegion) {
    && a.id != b.id
    && forall n: nat :: a.startLine <= n <= a.endLine && b.Covers(n) ==>
         Owned(owners, n) && (a.IsAttached() && b.IsAttached() ==> a.kind == b.kind)
  }

  predicate RegionsFit(lineCount: nat, owners: seq<LineOwner>, regions: seq<LineRegion>) {
    && (forall k :: 0 <= k < |regions| ==> RegionKnown(lineCount, owners, regions[k]) && RegionSits(owners, regions[k]))
    && (forall j, k :: 0 <= j < k < |regions| ==> RegionsAgree(owners, regions[j], regions[k]))
  }

  predicate EdgeKnown(owners: seq<LineOwner>, edge: Option<string>) {
    edge.Some? ==> IsOwner(owners, edge.value)
  }

  predicate GapKnown(lines: seq<string>, owners: seq<LineOwner>, gap: LineGap) {
    && gap.id != "" && gap.selectionKey != ""
    && ValidRange(gap.startLine, gap.endLine, |lines|)
    && gap.kind in ["preamble", "interstitial", "postlude"]
    && (gap.beforeOwnerId.Some? || gap.afterOwnerId.Some?)
    && EdgeKnown(owners, gap.beforeOwnerId) && EdgeKnown(owners, gap.afterOwnerId)
    && gap.controllerSide in ["before", "after"]
    && gap.controllerOwnerId.Some?
    && gap.controllerOwnerId == (if gap.controllerSide == "before" then gap.beforeOwnerId else gap.afterOwnerId)
    && (forall k :: gap.startLine - 1 <= k < gap.endLine ==> IsBlank(lines[k]))
  }

  /** A gap takes only lines that neither an owner nor a region has. */
  predicate GapSits(owners: seq<LineOwner>, regions: seq<LineRegion>, gap: LineGap) {
    && (forall k :: 0 <= k < |owners| ==> Apart(owners[k].startLine, owners[k].endLine, gap.startLine, gap.endLine))
    && (forall k :: 0 <= k < |regions| ==> Apart(regions[k].startLine, regions[k].endLine, gap.startLine, gap.endLine))
  }

  predicate GapsApart(a: LineGap, b: LineGap) {
    a.id != b.id && Apart(a.startLine, a.endLine, b.startLine, b.endLine)
  }

  predicate GapsFit(lines: seq<string>, owners: seq<LineOwner>, regions: seq<LineRegion>, gaps: seq<LineGap>) {
    && (forall k :: 0 <= k < |gaps| ==> GapKnown(lines, owners, gaps[k]) && GapSits(owners, regions, gaps[k]))
    && (forall j, k :: 0 <= j < k < |gaps| ==> GapsApart(gaps[j], gaps[k]))
  }

  datatype Fault = OwnerFault | RegionFault | GapFault

  /** The first stage that refuses the facts. */
  function Refusal(lines: seq<string>, facts: Facts): Option<Fault> {
    if !OwnersFit(|lines|, facts.owners) then Some(OwnerFault)
    else if !RegionsFit(|lines|, facts.owners, facts.regions) then Some(RegionFault)
    else if !GapsFit(lines, facts.owners, facts.regions, facts.gaps) then Some(GapFault)
    else None
  }

  // ----- the slots while facts are added one at a time

  ghost predicate Filled(slots: seq<Option<Disposition>>, lines: seq<string>, facts: Facts) {
    && |slots| == |lines|
    && forall k :: 0 <= k < |lines| ==> slots[k] == facts.Claim(k + 1, lines[k])
  }

  /** `after` up to line `m`, still `before` from there on. */
  ghost predicate FilledUpTo(slots: seq<Option<Disposition>>, lines: seq<string>, before: Facts, after: Facts, m: nat) {
    && |slots| == |lines|
    && forall k :: 0 <= k < |lines| ==>
         slots[k] == (if k + 1 < m then after else before).Claim(k + 1, lines[k])
  }

  /** Every line outside `[from, to]` has the same claim before and after. */
  ghost predicate SameOutside(lines: seq<string>, before: Facts, after: Facts, from: nat, to: nat) {
    forall k: nat :: k < |lines| && !(from <= k + 1 <= to) ==>
      before.Claim(k + 1, lines[k]) == after.Claim(k + 1, lines[k])
  }

  lemma StartFilling(slots: seq<Option<Disposition>>, lines: seq<string>, before: Facts, after: Facts, from: nat,
                     to: nat)
    requires Filled(slots, lines, before) && SameOutside(lines, before, after, from, to)
    ensures FilledUpTo(slots, lines, before, after, from)
  {
    hide Facts.Claim;
  }

  lemma EndFilling(slots: seq<Option<Disposition>>, lines: seq<string>, before: Facts, after: Facts, from: nat, to: nat)
    requires FilledUpTo(slots, lines, before, after, to + 1) && SameOutside(lines, before, after, from, to)
    ensures Filled(slots, lines, after)
  {
    hide Facts.Claim;
  }

  lemma FillOne(slots: seq<Option<Disposition>>, lines: seq<string>, before: Facts, after: Facts, m: nat)
    requires 1 <= m <= |lines| && FilledUpTo(slots, lines, before, after, m)
    ensures FilledUpTo(slots[m - 1 := after.Claim(m, lines[m - 1])], lines, before, after, m + 1)
  {
    hide Facts.Claim;
  }

  lemma FilterOne<T>(s: seq<T>, x: T, keep: T -> bool)
    ensures Filter(s + [x], keep) == Filter(s, keep) + if keep(x) then [x] else []
  {
    FilterAppend(s, [x], keep);
    assert [x][1..] == [];
  }

  /** Two nonempty ranges that are not apart share a line: the later of the two starts. */
  function SharedLine(aStart: nat, aEnd: nat, bStart: nat, bEnd: nat): (m: nat)
    requires aStart <= aEnd && bStart <= bEnd
    ensures !Apart(aStart, aEnd, bStart, bEnd) <==> aStart <= m <= aEnd && bStart <= m <= bEnd
  {
    if aStart < bStart then bStart else aStart
  }

  // ----- owners

  lemma OwnerAdds(facts: Facts, owner: LineOwner, n: nat, line: string)
    ensures var after := facts.(owners := facts.owners + [owner]);
            && (!owner.Covers(n) ==> after.Claim(n, line) == facts.Claim(n, line))
            && (owner.Covers(n) && facts.Claim(n, line).None? ==>
                  after.Claim(n, line) == Some(OwnedRecord(n, line, owner, [])))
  {
    FilterOne(facts.owners, owner, OwnerCovers(n));
  }

  lemma OwnerClaims(owners: seq<LineOwner>, n: nat, line: string)
    ensures Facts(owners, [], []).Claim(n, line).Some? <==> Owned(owners, n)
  {
    FilterMembers(owners, OwnerCovers(n));
    var at := Facts(owners, [], []).OwnersAt(n);
    assert Facts(owners, [], []).Claim(n, line).Some? <==> at != [];
    if at != [] {
      assert at[0] in at;
      var k :| 0 <= k < |owners| && owners[k] == at[0];
      assert owners[k].Covers(n);
    }
    if Owned(owners, n) {
      var k :| 0 <= k < |owners| && owners[k].Covers(n);
      assert owners[k] in at;
    }
  }

  /** One round of the owner loop; it stops when a line is taken. */
  method PlaceOwner(slots: array<Option<Disposition>>, lines: seq<string>, ghost owners: seq<LineOwner>,
                    owner: LineOwner)
    returns (ok: bool)
    requires Filled(slots[..], lines, Facts(owners, [], [])) && OwnersFit(|lines|, owners)
    requires ValidRange(owner.startLine, owner.endLine, |lines|)
    modifies slots
    ensures ok <==> forall k :: 0 <= k < |owners| ==>
                      Apart(owners[k].startLine, owners[k].endLine, owner.startLine, owner.endLine)
    ensures ok ==> Filled(slots[..], lines, Facts(owners + [owner], [], []))
  {
    hide Facts.Claim;
    ghost var before, after := Facts(owners, [], []), Facts(owners + [owner], [], []);
    forall k: nat | k < |lines| && !owner.Covers(k + 1)
      ensures before.Claim(k + 1, lines[k]) == after.Claim(k + 1, lines[k])
    {
      OwnerAdds(before, owner, k + 1, lines[k]);
    }
    StartFilling(slots[..], lines, before, after, owner.startLine, owner.endLine);
    for n := owner.startLine to owner.endLine + 1
      invariant FilledUpTo(slots[..], lines, before, after, n)
      invariant forall m: nat :: owner.startLine <= m < n ==> !Owned(owners, m)
    {
      OwnerClaims(owners, n, lines[n - 1]);
      if slots[n - 1].Some? {
        ok := false;
        ghost var k :| 0 <= k < |owners| && owners[k].Covers(n);
        assert !Apart(owners[k].startLine, owners[k].endLine, owner.startLine, owner.endLine);
        return;
      }
      OwnerAdds(before, owner, n, lines[n - 1]);
      FillOne(slots[..], lines, before, after, n);
      slots[n - 1] := Some(EmptyRecord(n, lines[n - 1]).(
        kind := StructuralOwner, selectionKey := "owner:" + owner.id, ownerId := Some(owner.id)));
    }
    EndFilling(slots[..], lines, before, after, owner.startLine, owner.endLine);
    ok := true;
    forall k | 0 <= k < |owners|
      ensures Apart(owners[k].startLine, owners[k].endLine, owner.startLine, owner.endLine)
    {
      ghost var m := SharedLine(owners[k].startLine, owners[k].endLine, owner.startLine, owner.endLine);
      assert owners[k].Covers(m) ==> Owned(owners, m);
    }
  }

  // ----- regions

  /** An owned line takes note of one more region. */
  function Noted(record: Disposition, region: LineRegion): Disposition {
    if region.IsAttached() then
      record.(regionIds := record.regionIds + [region.id], commentKind := Some(region.kind))
    else
      record.(regionIds := record.regionIds + [region.id], rootRegionKind := Some(region.kind))
  }

  lemma LastKindGrows(over: seq<LineRegion>, region: LineRegion, attached: bool)
    ensures LastKind(over + [region], attached) ==
            if region.IsAttached() == attached then Some(region.kind) else LastKind(over, attached)
  {
    assert (over + [region])[..|over|] == over;
  }

  lemma RegionAdds(facts: Facts, region: LineRegion, n: nat, line: string)
    ensures var before, after := facts.Claim(n, line), facts.(regions := facts.regions + [region]).Claim(n, line);
            && (!region.Covers(n) ==> after == before)
            && (region.Covers(n) && facts.OwnersAt(n) != [] ==>
                  before.Some? && after == Some(Noted(before.value, region)))
            && (region.Covers(n) && before.None? ==> after == Some(RegionRecord(n, line, region)))
  {
    hide Filter, LastKind, Map, RegionRecord, LineRegion.IsAttached;
    var over := facts.RegionsAt(n);
    FilterOne(facts.regions, region, RegionCovers(n));
    assert over + [] == over;
    LastKindGrows(over, region, true);
    LastKindGrows(over, region, false);
    assert Map(RegionId, over + [region]) == Map(RegionId, over) + [region.id];
  }

  /** The region whose owner's span it lies in, if any: `owners.iter().find(..)`. */
  function Containing(owners: seq<LineOwner>, region: LineRegion): (r: Option<LineOwner>)
    ensures r.Some? <==> Contained(owners, region)
    ensures r.Some? ==> r.value in owners && Contains(r.value, region)
  {
    if owners == [] then None
    else if Contains(owners[0], region) then Some(owners[0])
    else
      assert Contained(owners[1..], region) ==> Contained(owners, region) by {
        assert owners == [owners[0]] + owners[1..];
      }
      Containing(owners[1..], region)
  }

  lemma OwnersAtAre(facts: Facts, n: nat)
    ensures forall owner :: owner in facts.OwnersAt(n) <==> owner in facts.owners && owner.Covers(n)
    ensures facts.OwnersAt(n) != [] <==> Owned(facts.owners, n)
  {
    FilterMembers(facts.owners, OwnerCovers(n));
    var at := facts.OwnersAt(n);
    if at != [] {
      assert at[0] in at;
      var k :| 0 <= k < |facts.owners| && facts.owners[k] == at[0];
      assert facts.owners[k].Covers(n);
    }
    if Owned(facts.owners, n) {
      var k :| 0 <= k < |facts.owners| && facts.owners[k].Covers(n);
      assert facts.owners[k] in at;
    }
  }

  /** Owners that fit have every line at most once. */
  lemma OwnerIsUnique(lineCount: nat, facts: Facts, owner: LineOwner, n: nat)
    requires OwnersFit(lineCount, facts.owners) && owner in facts.owners && owner.Covers(n)
    ensures facts.OwnersAt(n) != [] && facts.OwnersAt(n)[0] == owner
  {
    OwnersAtAre(facts, n);
    var at := facts.OwnersAt(n);
    assert owner in at && at[0] in at;
    var j :| 0 <= j < |facts.owners| && facts.owners[j] == owner;
    var k :| 0 <= k < |facts.owners| && facts.owners[k] == at[0];
  }

  /** A root region inside one owner's span is only noted on that owner's lines. */
  method LiftRegion(slots: array<Option<Disposition>>, lines: seq<string>, owners: seq<LineOwner>,
                    ghost regions: seq<LineRegion>, region: LineRegion, owner: LineOwner)
    returns (ok: bool)
    requires Filled(slots[..], lines, Facts(owners, regions, []))
    requires OwnersFit(|lines|, owners) && ValidRange(region.startLine, region.endLine, |lines|)
    requires owner in owners && Contains(owner, region) && !region.IsAttached()
    modifies slots
    ensures ok && Filled(slots[..], lines, Facts(owners, regions + [region], []))
  {
    hide OwnersFit;
    ghost var before, after := Facts(owners, regions, []), Facts(owners, regions + [region], []);
    RegionStays(lines, before, region);
    StartFilling(slots[..], lines, before, after, region.startLine, region.endLine);
    for n := region.startLine to region.endLine + 1
      invariant FilledUpTo(slots[..], lines, before, after, n)
    {
      OwnerIsUnique(|lines|, before, owner, n);
      RegionAdds(before, region, n, lines[n - 1]);
      FillOne(slots[..], lines, before, after, n);
      assert slots[n - 1] == slots[..][n - 1] == before.Claim(n, lines[n - 1]);
      hide Facts.Claim;
      if slots[n - 1].None? || slots[n - 1].value.kind != StructuralOwner
         || slots[n - 1].value.ownerId != Some(owner.id) {
        ok := false;
        return;
      }
      var record := slots[n - 1].value;
      slots[n - 1] := Some(record.(
        regionIds := record.regionIds + [region.id], rootRegionKind := Some(region.kind)));
    }
    EndFilling(slots[..], lines, before, after, region.startLine, region.endLine);
    ok := true;
  }

  lemma RegionStays(lines: seq<string>, facts: Facts, region: LineRegion)
    ensures SameOutside(lines, facts, facts.(regions := facts.regions + [region]), region.startLine, region.endLine)
  {
    hide Facts.Claim;
    forall k: nat | k < |lines| && !(region.startLine <= k + 1 <= region.endLine)
      ensures facts.Claim(k + 1, lines[k]) == facts.(regions := facts.regions + [region]).Claim(k + 1, lines[k])
    {
      RegionAdds(facts, region, k + 1, lines[k]);
    }
  }

  /** What the region loop asks of one line of a region that is not lifted. */
  predicate LineAccepts(owners: seq<LineOwner>, regions: seq<LineRegion>, region: LineRegion, n: nat) {
    && (forall k :: 0 <= k < |owners| && owners[k].Covers(n) ==> region.ownerId == Some(owners[k].id))
    && (forall j :: 0 <= j < |regions| && regions[j].Covers(n) ==>
          Owned(owners, n) && (regions[j].IsAttached() && region.IsAttached() ==> regions[j].kind == region.kind))
  }

  predicate ClaimAccepts(claim: Option<Disposition>, region: LineRegion) {
    claim.Some? ==>
      && claim.value.kind == StructuralOwner && claim.value.ownerId == region.ownerId && region.IsAttached()
      && (claim.value.commentKind.Some? ==> claim.value.commentKind.value == region.kind)
  }

  lemma {:induction false} LastKindIsThere(over: seq<LineRegion>, attached: bool)
    ensures match LastKind(over, attached)
            case Some(kind) => exists r :: r in over && r.IsAttached() == attached && r.kind == kind
            case None => forall r :: r in over ==> r.IsAttached() != attached
  {
    if over != [] {
      var n := |over| - 1;
      LastKindIsThere(over[..n], attached);
      assert over == over[..n] + [over[n]];
      assert over[n] in over;
    }
  }

  lemma RegionsAtAre(facts: Facts, n: nat)
    ensures forall region :: region in facts.RegionsAt(n) <==> region in facts.regions && region.Covers(n)
  {
    FilterMembers(facts.regions, RegionCovers(n));
  }

  /** Attached regions on one line have one kind. */
  lemma OneKindPerLine(lineCount: nat, owners: seq<LineOwner>, regions: seq<LineRegion>, a: LineRegion, b: LineRegion,
                       n: nat)
    requires RegionsFit(lineCount, owners, regions)
    requires a in regions && b in regions && a.Covers(n) && b.Covers(n) && a.IsAttached() && b.IsAttached()
    ensures a.kind == b.kind
  {
    hide RegionKnown, RegionSits;
    var j :| 0 <= j < |regions| && regions[j] == a;
    var k :| 0 <= k < |regions| && regions[k] == b;
    if j < k {
      assert RegionsAgree(owners, a, b);
    } else if k < j {
      assert RegionsAgree(owners, b, a);
    }
  }

  /** On an owned line, the record decides whether one more region is accepted. */
  lemma OwnedClaimDecides(lineCount: nat, facts: Facts, region: LineRegion, n: nat, line: string)
    requires OwnersFit(lineCount, facts.owners) && RegionsFit(lineCount, facts.owners, facts.regions)
    requires facts.OwnersAt(n) != []
    ensures region.IsAttached() && ClaimAccepts(facts.Claim(n, line), region)
       <==> LineAccepts(facts.owners, facts.regions, region, n)
  {
    var owner, over := facts.OwnersAt(n)[0], facts.RegionsAt(n);
    OwnersAtAre(facts, n);
    RegionsAtAre(facts, n);
    assert owner in facts.OwnersAt(n);
    LastKindIsThere(over, true);
    forall k | 0 <= k < |facts.owners| && facts.owners[k].Covers(n) ensures facts.owners[k] == owner {
      OwnerIsUnique(lineCount, facts, facts.owners[k], n);
    }
    hide OwnersFit, RegionsFit;
    if LastKind(over, true).Some? {
      var w :| w in over && w.IsAttached() && w.kind == LastKind(over, true).value;
      forall j | 0 <= j < |facts.regions| && facts.regions[j].Covers(n) && facts.regions[j].IsAttached()
        ensures facts.regions[j].kind == w.kind
      {
        OneKindPerLine(lineCount, facts.owners, facts.regions, facts.regions[j], w, n);
      }
    } else {
      assert forall j :: 0 <= j < |facts.regions| && facts.regions[j].Covers(n) ==> facts.regions[j] in over;
    }
  }

  lemma ClaimDecides(lineCount: nat, facts: Facts, region: LineRegion, n: nat, line: string)
    requires OwnersFit(lineCount, facts.owners) && RegionsFit(lineCount, facts.owners, facts.regions)
    requires facts.gaps == []
    ensures ClaimAccepts(facts.Claim(n, line), region) <==> LineAccepts(facts.owners, facts.regions, region, n)
    ensures facts.Claim(n, line).None? ==> facts.OwnersAt(n) == []
  {
    OwnersAtAre(facts, n);
    RegionsAtAre(facts, n);
    if facts.OwnersAt(n) != [] {
      OwnedClaimDecides(lineCount, facts, region, n, line);
    } else if facts.RegionsAt(n) != [] {
      assert facts.RegionsAt(n)[0] in facts.RegionsAt(n);
    } else {
      assert forall j :: 0 <= j < |facts.regions| && facts.regions[j].Covers(n) ==>
               facts.regions[j] in facts.RegionsAt(n);
    }
  }

  /** The line-by-line checks together say that the region may join the earlier ones. */
  lemma LinesDecideRegion(owners: seq<LineOwner>, regions: seq<LineRegion>, region: LineRegion)
    requires forall j :: 0 <= j < |regions| ==> regions[j].id != region.id
    ensures var joins := RegionSits(owners, region)
                         && forall j :: 0 <= j < |regions| ==> RegionsAgree(owners, regions[j], region);
            if !region.IsAttached() && Contained(owners, region) then joins
            else joins <==> forall n: nat :: region.startLine <= n <= region.endLine ==>
                              LineAccepts(owners, regions, region, n)
  {
    if !region.IsAttached() && Contained(owners, region) {
      var k :| 0 <= k < |owners| && Contains(owners[k], region);
      assert forall n: nat :: region.Covers(n) ==> owners[k].Covers(n);
    } else {
      if RegionSits(owners, region) && forall j :: 0 <= j < |regions| ==> RegionsAgree(owners, regions[j], region) {
        forall n: nat | region.startLine <= n <= region.endLine ensures LineAccepts(owners, regions, region, n) {
          assert region.Covers(n);
          assert forall j :: 0 <= j < |regions| ==> RegionsAgree(owners, regions[j], region);
        }
      }
      if forall n: nat :: region.startLine <= n <= region.endLine ==> LineAccepts(owners, regions, region, n) {
        forall k, n: nat | 0 <= k < |owners| && owners[k].startLine <= n <= owners[k].endLine && region.Covers(n)
          ensures region.ownerId == Some(owners[k].id)
        {
          assert LineAccepts(owners, regions, region, n) && owners[k].Covers(n);
        }
        forall j | 0 <= j < |regions| ensures RegionsAgree(owners, regions[j], region) {
          forall n: nat | regions[j].startLine <= n <= regions[j].endLine && region.Covers(n)
            ensures Owned(owners, n)
                    && (regions[j].IsAttached() && region.IsAttached() ==> regions[j].kind == region.kind)
          {
            assert LineAccepts(owners, regions, region, n) && regions[j].Covers(n);
          }
        }
      }
    }
  }

  /** A region that is not lifted claims free lines and is noted on its owner's lines. */
  method AttachRegion(slots: array<Option<Disposition>>, lines: seq<string>, ghost owners: seq<LineOwner>,
                      ghost regions: seq<LineRegion>, region: LineRegion)
    returns (ok: bool)
    requires Filled(slots[..], lines, Facts(owners, regions, []))
    requires OwnersFit(|lines|, owners) && RegionsFit(|lines|, owners, regions)
    requires ValidRange(region.startLine, region.endLine, |lines|)
    modifies slots
    ensures ok <==> forall n: nat :: region.startLine <= n <= region.endLine ==>
                      LineAccepts(owners, regions, region, n)
    ensures ok ==> Filled(slots[..], lines, Facts(owners, regions + [region], []))
  {
    hide OwnersFit, RegionsFit, Facts.Claim, LineAccepts, Facts.OwnersAt;
    ghost var before, after := Facts(owners, regions, []), Facts(owners, regions + [region], []);
    RegionStays(lines, before, region);
    StartFilling(slots[..], lines, before, after, region.startLine, region.endLine);
    for n := region.startLine to region.endLine + 1
      invariant FilledUpTo(slots[..], lines, before, after, n)
      invariant forall m: nat :: region.startLine <= m < n ==> LineAccepts(owners, regions, region, m)
    {
      ClaimDecides(|lines|, before, region, n, lines[n - 1]);
      RegionAdds(before, region, n, lines[n - 1]);
      FillOne(slots[..], lines, before, after, n);
      assert slots[n - 1] == slots[..][n - 1] == before.Claim(n, lines[n - 1]);
      if slots[n - 1].Some? {
        var record := slots[n - 1].value;
        if record.kind != StructuralOwner || record.ownerId != region.ownerId || !region.IsAttached() {
          return false;
        }
        if record.commentKind.Some? && record.commentKind.value != region.kind {
          return false;
        }
        AcceptedIsOwned(before, region, n, lines[n - 1]);
        slots[n - 1] := Some(record.(
          regionIds := record.regionIds + [region.id], commentKind := Some(region.kind)));
      } else {
        var record := EmptyRecord(n, lines[n - 1]).(
          kind := if region.IsAttached() then CommentOwner else RootRegion,
          ownerId := region.ownerId, selectionKey := region.selectionKey, regionIds := [region.id]);
        if region.IsAttached() {
          record := record.(commentKind := Some(region.kind));
        } else {
          record := record.(rootRegionKind := Some(region.kind));
        }
        slots[n - 1] := Some(record);
      }
    }
    EndFilling(slots[..], lines, before, after, region.startLine, region.endLine);
    ok := true;
  }

  lemma AcceptedIsOwned(facts: Facts, region: LineRegion, n: nat, line: string)
    requires facts.Claim(n, line).Some? && facts.Claim(n, line).value.kind == StructuralOwner
    ensures facts.OwnersAt(n) != []
  {}

  /** One round of the region loop. */
  method PlaceRegion(slots: array<Option<Disposition>>, lines: seq<string>, owners: seq<LineOwner>,
                     ghost regions: seq<LineRegion>, region: LineRegion)
    returns (ok: bool)
    requires Filled(slots[..], lines, Facts(owners, regions, []))
    requires OwnersFit(|lines|, owners) && RegionsFit(|lines|, owners, regions)
    requires ValidRange(region.startLine, region.endLine, |lines|)
    requires forall j :: 0 <= j < |regions| ==> regions[j].id != region.id
    modifies slots
    ensures ok <==> RegionSits(owners, region)
                    && forall j :: 0 <= j < |regions| ==> RegionsAgree(owners, regions[j], region)
    ensures ok ==> Filled(slots[..], lines, Facts(owners, regions + [region], []))
  {
    hide OwnersFit, RegionsFit, LineAccepts, RegionSits, RegionsAgree, Contained, Filled;
    LinesDecideRegion(owners, regions, region);
    var owner := Containing(owners, region);
    if !region.IsAttached() && owner.Some? {
      ok := LiftRegion(slots, lines, owners, regions, region, owner.value);
    } else {
      ok := AttachRegion(slots, lines, owners, regions, region);
    }
  }

  // ----- gaps

  lemma GapAdds(facts: Facts, gap: LineGap, n: nat, line: string)
    ensures var before, after := facts.Claim(n, line), facts.(gaps := facts.gaps + [gap]).Claim(n, line);
            && (!gap.Covers(n) ==> after == before)
            && (gap.Covers(n) && before.None? ==> after == Some(GapRecord(n, line, gap)))
  {
    FilterOne(facts.gaps, gap, GapCovers(n));
    assert facts.GapsAt(n) + [] == facts.GapsAt(n);
  }

  /** Line `n` has no owner, no region and none of the gaps. */
  predicate Unclaimed(facts: Facts, n: nat) {
    && (forall k :: 0 <= k < |facts.owners| ==> !facts.owners[k].Covers(n))
    && (forall k :: 0 <= k < |facts.regions| ==> !facts.regions[k].Covers(n))
    && (forall k :: 0 <= k < |facts.gaps| ==> !facts.gaps[k].Covers(n))
  }

  lemma NoneIsUnclaimed(facts: Facts, n: nat, line: string)
    ensures facts.Claim(n, line).None? <==> Unclaimed(facts, n)
  {
    FilterIsEmpty(facts.owners, OwnerCovers(n));
    FilterIsEmpty(facts.regions, RegionCovers(n));
    FilterIsEmpty(facts.gaps, GapCovers(n));
  }

  lemma FilterIsEmpty<T(!new)>(s: seq<T>, keep: T -> bool)
    ensures Filter(s, keep) == [] <==> forall k :: 0 <= k < |s| ==> !keep(s[k])
  {
    FilterMembers(s, keep);
    if Filter(s, keep) != [] {
      assert Filter(s, keep)[0] in Filter(s, keep);
    } else {
      forall k | 0 <= k < |s| ensures !keep(s[k]) {
        assert s[k] in s;
      }
    }
  }

  predicate LineJoins(lines: seq<string>, facts: Facts, n: nat)
    requires 1 <= n <= |lines|
  {
    Unclaimed(facts, n) && IsBlank(lines[n - 1])
  }

  /** The gap's lines are free and blank. */
  ghost predicate GapJoins(lines: seq<string>, facts: Facts, gap: LineGap)
    requires ValidRange(gap.startLine, gap.endLine, |lines|)
  {
    forall n: nat :: gap.startLine <= n <= gap.endLine ==> LineJoins(lines, facts, n)
  }

  /** One round of the gap loop. */
  method PlaceGap(slots: array<Option<Disposition>>, lines: seq<string>, ghost facts: Facts, gap: LineGap)
    returns (ok: bool)
    requires Filled(slots[..], lines, facts)
    requires ValidRange(gap.startLine, gap.endLine, |lines|)
    modifies slots
    ensures ok <==> GapJoins(lines, facts, gap)
    ensures ok ==> Filled(slots[..], lines, facts.(gaps := facts.gaps + [gap]))
  {
    hide Facts.Claim, Unclaimed;
    ghost var after := facts.(gaps := facts.gaps + [gap]);
    forall k: nat | k < |lines| && !(gap.startLine <= k + 1 <= gap.endLine)
      ensures facts.Claim(k + 1, lines[k]) == after.Claim(k + 1, lines[k])
    {
      GapAdds(facts, gap, k + 1, lines[k]);
    }
    StartFilling(slots[..], lines, facts, after, gap.startLine, gap.endLine);
    for n := gap.startLine to gap.endLine + 1
      invariant FilledUpTo(slots[..], lines, facts, after, n)
      invariant forall m: nat :: gap.startLine <= m < n ==> LineJoins(lines, facts, m)
    {
      NoneIsUnclaimed(facts, n, lines[n - 1]);
      assert slots[n - 1] == slots[..][n - 1] == facts.Claim(n, lines[n - 1]);
      assert LineJoins(lines, facts, n) <==> slots[n - 1].None? && IsBlank(lines[n - 1]);
      if !IsBlank(lines[n - 1]) {
        return false;
      }
      if slots[n - 1].Some? {
        return false;
      }
      GapAdds(facts, gap, n, lines[n - 1]);
      FillOne(slots[..], lines, facts, after, n);
      slots[n - 1] := Some(EmptyRecord(n, lines[n - 1]).(
        kind := LayoutGap, selectionKey := gap.selectionKey, gapId := Some(gap.id),
        controllerOwnerId := gap.controllerOwnerId,
        beforeOwnerId := gap.beforeOwnerId, afterOwnerId := gap.afterOwnerId));
    }
    EndFilling(slots[..], lines, facts, after, gap.startLine, gap.endLine);
    ok := true;
  }

  // ----- the three stages

  lemma OwnersFitStep(lineCount: nat, owners: seq<LineOwner>, k: nat)
    requires k < |owners|
    ensures OwnersFit(lineCount, owners[..k + 1]) <==>
            && OwnersFit(lineCount, owners[..k]) && OwnerFits(lineCount, owners[k])
            && forall j :: 0 <= j < k ==> OwnersApart(owners[j], owners[k])
    ensures OwnersFit(lineCount, owners) ==> OwnersFit(lineCount, owners[..k + 1])
  {
    hide OwnerFits, OwnersApart;
    var next, prefix := owners[..k + 1], owners[..k];
    assert next == prefix + [owners[k]];
    if OwnersFit(lineCount, next) {
      assert forall j :: 0 <= j < k ==> prefix[j] == next[j];
      forall j | 0 <= j < k ensures OwnersApart(owners[j], owners[k]) {
        assert OwnersApart(next[j], next[k]);
      }
    }
  }

  method PlaceOwners(slots: array<Option<Disposition>>, lines: seq<string>, owners: seq<LineOwner>)
    returns (ok: bool, ids: set<string>)
    requires Filled(slots[..], lines, Facts([], [], []))
    modifies slots
    ensures ok <==> OwnersFit(|lines|, owners)
    ensures ok ==> Filled(slots[..], lines, Facts(owners, [], [])) && forall id :: id in ids <==> IsOwner(owners, id)
  {
    hide Filled, OwnersFit;
    ids := {};
    assert owners[..0] == [] && owners[..|owners|] == owners;
    assert OwnersFit(|lines|, owners[..0]) by { NoOwnersFit(|lines|); }
    for k := 0 to |owners|
      invariant Filled(slots[..], lines, Facts(owners[..k], [], []))
      invariant OwnersFit(|lines|, owners[..k])
      invariant forall id :: id in ids <==> exists j :: 0 <= j < k && owners[j].id == id
    {
      var owner := owners[k];
      OwnersFitStep(|lines|, owners, k);
      assert forall j :: 0 <= j < k ==> owners[..k][j] == owners[j];
      if owner.id == "" || owner.id in ids {
        ok := false;
        return;
      }
      ids := ids + {owner.id};
      if !ValidRange(owner.startLine, owner.endLine, |lines|) {
        ok := false;
        return;
      }
      assert owners[..k + 1] == owners[..k] + [owner];
      ok := PlaceOwner(slots, lines, owners[..k], owner);
      if !ok {
        return;
      }
    }
    ok := true;
  }

  lemma NoOwnersFit(lineCount: nat)
    ensures OwnersFit(lineCount, [])
  {}

  lemma RegionsFitStep(lineCount: nat, owners: seq<LineOwner>, regions: seq<LineRegion>, k: nat)
    requires k < |regions|
    ensures RegionsFit(lineCount, owners, regions[..k + 1]) <==>
            && RegionsFit(lineCount, owners, regions[..k])
            && RegionKnown(lineCount, owners, regions[k]) && RegionSits(owners, regions[k])
            && forall j :: 0 <= j < k ==> RegionsAgree(owners, regions[j], regions[k])
    ensures RegionsFit(lineCount, owners, regions) ==> RegionsFit(lineCount, owners, regions[..k + 1])
  {
    hide RegionKnown, RegionSits, RegionsAgree;
    var next, prefix := regions[..k + 1], regions[..k];
    assert next == prefix + [regions[k]];
    if RegionsFit(lineCount, owners, next) {
      assert forall j :: 0 <= j < k ==> prefix[j] == next[j];
      assert RegionKnown(lineCount, owners, next[k]);
      forall j | 0 <= j < k ensures RegionsAgree(owners, regions[j], regions[k]) {
        assert RegionsAgree(owners, next[j], next[k]);
      }
    }
  }

  lemma NoRegionsFit(lineCount: nat, owners: seq<LineOwner>)
    ensures RegionsFit(lineCount, owners, [])
  {}

  /** What the region loop checks before it looks at the lines. */
  predicate RegionChecked(lineCount: nat, ids: set<string>, region: LineRegion) {
    && region.id != "" && region.selectionKey != ""
    && ValidRange(region.startLine, region.endLine, lineCount)
    && match region.ownerId
       case Some(owner) => owner in ids && region.kind in ["leading", "inline", "trailing"]
       case None => region.kind in ["preamble", "postlude", "orphan"]
  }

  method PlaceRegions(slots: array<Option<Disposition>>, lines: seq<string>, owners: seq<LineOwner>,
                      ids: set<string>, regions: seq<LineRegion>)
    returns (ok: bool)
    requires Filled(slots[..], lines, Facts(owners, [], [])) && OwnersFit(|lines|, owners)
    requires forall id :: id in ids <==> IsOwner(owners, id)
    modifies slots
    ensures ok <==> RegionsFit(|lines|, owners, regions)
    ensures ok ==> Filled(slots[..], lines, Facts(owners, regions, []))
  {
    hide Filled, OwnersFit, RegionsFit, RegionSits, IsOwner;
    var regionIds: set<string> := {};
    assert regions[..0] == [] && regions[..|regions|] == regions;
    NoRegionsFit(|lines|, owners);
    for k := 0 to |regions|
      invariant Filled(slots[..], lines, Facts(owners, regions[..k], []))
      invariant RegionsFit(|lines|, owners, regions[..k])
      invariant forall id :: id in regionIds <==> exists j :: 0 <= j < k && regions[j].id == id
    {
      var region := regions[k];
      RegionsFitStep(|lines|, owners, regions, k);
      assert forall j :: 0 <= j < k ==> regions[..k][j] == regions[j];
      assert RegionKnown(|lines|, owners, region) <==> RegionChecked(|lines|, ids, region);
      if region.id in regionIds || !RegionChecked(|lines|, ids, region) {
        return false;
      }
      regionIds := regionIds + {region.id};
      assert regions[..k + 1] == regions[..k] + [region];
      ok := PlaceRegion(slots, lines, owners, regions[..k], region);
      if !ok {
        return;
      }
    }
    ok := true;
  }

  lemma GapsFitStep(lines: seq<string>, owners: seq<LineOwner>, regions: seq<LineRegion>, gaps: seq<LineGap>, k: nat)
    requires k < |gaps|
    ensures GapsFit(lines, owners, regions, gaps[..k + 1]) <==>
            && GapsFit(lines, owners, regions, gaps[..k])
            && GapKnown(lines, owners, gaps[k]) && GapSits(owners, regions, gaps[k])
            && forall j :: 0 <= j < k ==> GapsApart(gaps[j], gaps[k])
    ensures GapsFit(lines, owners, regions, gaps) ==> GapsFit(lines, owners, regions, gaps[..k + 1])
  {
    hide GapKnown, GapSits, GapsApart;
    var next, prefix := gaps[..k + 1], gaps[..k];
    assert next == prefix + [gaps[k]];
    if GapsFit(lines, owners, regions, next) {
      assert forall j :: 0 <= j < k ==> prefix[j] == next[j];
      assert GapKnown(lines, owners, next[k]);
      forall j | 0 <= j < k ensures GapsApart(gaps[j], gaps[k]) {
        assert GapsApart(next[j], next[k]);
      }
    }
  }

  lemma NoGapsFit(lines: seq<string>, owners: seq<LineOwner>, regions: seq<LineRegion>)
    ensures GapsFit(lines, owners, regions, [])
  {}

  /** What the gap loop checks before it looks at the lines. */
  predicate GapChecked(lineCount: nat, ids: set<string>, gap: LineGap) {
    && gap.id != "" && gap.selectionKey != ""
    && ValidRange(gap.startLine, gap.endLine, lineCount)
    && gap.kind in ["preamble", "interstitial", "postlude"]
    && (gap.beforeOwnerId.Some? || gap.afterOwnerId.Some?)
    && (gap.beforeOwnerId.Some? ==> gap.beforeOwnerId.value in ids)
    && (gap.afterOwnerId.Some? ==> gap.afterOwnerId.value in ids)
    && gap.controllerSide in ["before", "after"]
    && var expected := if gap.controllerSide == "before" then gap.beforeOwnerId else gap.afterOwnerId;
       expected.Some? && expected == gap.controllerOwnerId
  }

  lemma GapKnownIs(lines: seq<string>, owners: seq<LineOwner>, ids: set<string>, gap: LineGap)
    requires forall id :: id in ids <==> IsOwner(owners, id)
    ensures GapKnown(lines, owners, gap) <==>
            GapChecked(|lines|, ids, gap) && forall k :: gap.startLine - 1 <= k < gap.endLine ==> IsBlank(lines[k])
  {
    hide IsOwner, IsBlank;
  }

  /** The line-by-line checks of a gap are what remains of its acceptance. */
  lemma LinesDecideGap(lines: seq<string>, facts: Facts, gap: LineGap)
    requires OwnersFit(|lines|, facts.owners) && RegionsFit(|lines|, facts.owners, facts.regions)
    requires GapsFit(lines, facts.owners, facts.regions, facts.gaps)
    requires ValidRange(gap.startLine, gap.endLine, |lines|)
    requires forall j :: 0 <= j < |facts.gaps| ==> facts.gaps[j].id != gap.id
    ensures GapJoins(lines, facts, gap) <==>
            && (forall k :: gap.startLine - 1 <= k < gap.endLine ==> IsBlank(lines[k]))
            && GapSits(facts.owners, facts.regions, gap)
            && forall j :: 0 <= j < |facts.gaps| ==> GapsApart(facts.gaps[j], gap)
  {
    assert forall k :: 0 <= k < |facts.regions| ==> RegionKnown(|lines|, facts.owners, facts.regions[k]);
    assert forall k :: 0 <= k < |facts.gaps| ==> GapKnown(lines, facts.owners, facts.gaps[k]);
    hide RegionsFit, GapsFit, IsBlank;
    if GapJoins(lines, facts, gap) {
      forall k | gap.startLine - 1 <= k < gap.endLine ensures IsBlank(lines[k]) {
        assert LineJoins(lines, facts, k + 1);
      }
      forall k | 0 <= k < |facts.owners|
        ensures Apart(facts.owners[k].startLine, facts.owners[k].endLine, gap.startLine, gap.endLine)
      {
        assert OwnerFits(|lines|, facts.owners[k]);
        var m := SharedLine(facts.owners[k].startLine, facts.owners[k].endLine, gap.startLine, gap.endLine);
        assert gap.Covers(m) ==> LineJoins(lines, facts, m);
      }
      forall k | 0 <= k < |facts.regions|
        ensures Apart(facts.regions[k].startLine, facts.regions[k].endLine, gap.startLine, gap.endLine)
      {
        var m := SharedLine(facts.regions[k].startLine, facts.regions[k].endLine, gap.startLine, gap.endLine);
        assert gap.Covers(m) ==> LineJoins(lines, facts, m);
      }
      forall k | 0 <= k < |facts.gaps| ensures GapsApart(facts.gaps[k], gap) {
        var m := SharedLine(facts.gaps[k].startLine, facts.gaps[k].endLine, gap.startLine, gap.endLine);
        assert gap.Covers(m) ==> LineJoins(lines, facts, m);
      }
    }
  }

  method PlaceGaps(slots: array<Option<Disposition>>, lines: seq<string>, ghost owners: seq<LineOwner>,
                   ghost regions: seq<LineRegion>, ids: set<string>, gaps: seq<LineGap>)
    returns (ok: bool)
    requires Filled(slots[..], lines, Facts(owners, regions, []))
    requires OwnersFit(|lines|, owners) && RegionsFit(|lines|, owners, regions)
    requires forall id :: id in ids <==> IsOwner(owners, id)
    modifies slots
    ensures ok <==> GapsFit(lines, owners, regions, gaps)
    ensures ok ==> Filled(slots[..], lines, Facts(owners, regions, gaps))
  {
    hide Filled, OwnersFit, RegionsFit, GapsFit, GapSits, IsOwner, GapJoins, GapKnown;
    var gapIds: set<string> := {};
    assert gaps[..0] == [] && gaps[..|gaps|] == gaps;
    NoGapsFit(lines, owners, regions);
    for k := 0 to |gaps|
      invariant Filled(slots[..], lines, Facts(owners, regions, gaps[..k]))
      invariant GapsFit(lines, owners, regions, gaps[..k])
      invariant forall id :: id in gapIds <==> exists j :: 0 <= j < k && gaps[j].id == id
    {
      var gap := gaps[k];
      GapsFitStep(lines, owners, regions, gaps, k);
      assert forall j :: 0 <= j < k ==> gaps[..k][j] == gaps[j];
      GapKnownIs(lines, owners, ids, gap);
      if gap.id in gapIds || !GapChecked(|lines|, ids, gap) {
        return false;
      }
      gapIds := gapIds + {gap.id};
      ghost var facts := Facts(owners, regions, gaps[..k]);
      assert gaps[..k + 1] == gaps[..k] + [gap];
      LinesDecideGap(lines, facts, gap);
      ok := PlaceGap(slots, lines, facts, gap);
      if !ok {
        return;
      }
    }
    ok := true;
  }

  /** `source_line_dispositions`: refused at the first stage that does not fit, else one record per line. */
  method SourceLineDispositions(
      source: string, owners: seq<LineOwner>, regions: seq<LineRegion>, gaps: seq<LineGap>)
    returns (r: Result<seq<Disposition>, Fault>)
    ensures var lines, facts := SplitInclusive(source, '\n'), Facts(owners, regions, gaps);
            r == match Refusal(lines, facts)
                 case Some(fault) => Err(fault)
                 case None => Ok(Records(lines, facts))
  {
    hide OwnersFit, RegionsFit, GapsFit, IsOwner, SplitInclusive;
    var lines := SplitInclusive(source, '\n');
    var slots := new Option<Disposition>[|lines|](_ => None);
    assert Filled(slots[..], lines, Facts([], [], []));
    hide Filled;
    var ok, ids := PlaceOwners(slots, lines, owners);
    if !ok {
      return Err(OwnerFault);
    }
    ok := PlaceRegions(slots, lines, owners, ids, regions);
    if !ok {
      return Err(RegionFault);
    }
    ok := PlaceGaps(slots, lines, owners, regions, ids, gaps);
    if !ok {
      return Err(GapFault);
    }
    var records := CollectRecords(slots, lines, Facts(owners, regions, gaps));
    r := Ok(records);
  }

  method CollectRecords(slots: array<Option<Disposition>>, lines: seq<string>, ghost facts: Facts)
    returns (records: seq<Disposition>)
    requires Filled(slots[..], lines, facts)
    ensures records == Records(lines, facts)
  {
    hide Facts.Claim;
    records := [];
    for k := 0 to |lines|
      invariant |records| == k
      invariant forall j :: 0 <= j < k ==> records[j] == Records(lines, facts)[j]
    {
      assert slots[k] == slots[..][k] == facts.Claim(k + 1, lines[k]);
      records := records + [match slots[k] case Some(record) => record case None => EmptyRecord(k + 1, lines[k])];
    }
  }
}
