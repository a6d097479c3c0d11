/** When a layout is refused and what its gaps carry, said of owners, boundaries and lines. */
module LayoutRules {
  import opened Wrappers
  import opened Sequences
  import opened Sorting
  import opened Text
  import opened LayoutGaps
  import opened LayoutGapProperties

  predicate IsSound(lineCount: nat, owner: LineOwner) {
    owner.id != "" && 1 <= owner.startLine <= owner.endLine <= lineCount
  }

  predicate AllSound(lineCount: nat, owners: seq<LineOwner>) {
    forall owner :: owner in owners ==> IsSound(lineCount, owner)
  }

  predicate OwnerOn(owners: seq<LineOwner>, k: nat, line: nat) {
    k < |owners| && owners[k].startLine <= line <= owners[k].endLine
  }

  /** Some line belongs to two owners. */
  ghost predicate ShareLine(owners: seq<LineOwner>) {
    exists j: nat, k: nat, line: nat :: j < k && OwnerOn(owners, j, line) && OwnerOn(owners, k, line)
  }

  /** The uppermost owner of that id. */
  predicate IsUppermost(owners: seq<LineOwner>, id: string, owner: LineOwner) {
    && owner in owners && owner.id == id
    && forall other :: other in owners && other.id == id ==> owner.startLine <= other.startLine
  }

  /** A boundary has a range in the file and stands on its side of the owner that it names. */
  ghost predicate Stands(lineCount: nat, owners: seq<LineOwner>, boundary: Boundary) {
    && 1 <= boundary.startLine <= boundary.endLine <= lineCount
    && exists owner :: IsUppermost(owners, boundary.ownerId, owner)
         && (|| (boundary.kind == "leading" && boundary.endLine < owner.startLine)
             || (boundary.kind == "trailing" && boundary.startLine > owner.endLine))
  }

  lemma DisjointIsUnshared(lineCount: nat, owners: seq<LineOwner>)
    requires AllSound(lineCount, owners)
    ensures OwnersDisjoint(owners) <==> !ShareLine(owners)
  {
    if !OwnersDisjoint(owners) {
      var j, k :| 0 <= j < k < |owners|
        && !D.Apart(owners[j].startLine, owners[j].endLine, owners[k].startLine, owners[k].endLine);
      assert owners[j] in owners && owners[k] in owners;
      var line := if owners[j].startLine < owners[k].startLine then owners[k].startLine else owners[j].startLine;
      assert OwnerOn(owners, j, line) && OwnerOn(owners, k, line);
    }
    if ShareLine(owners) {
      var j: nat, k: nat, line: nat :| j < k && OwnerOn(owners, j, line) && OwnerOn(owners, k, line);
    }
  }

  lemma FoundIsUppermost(owners: seq<LineOwner>, id: string, owner: LineOwner)
    requires OwnersDisjoint(owners) && forall o :: o in owners ==> o.startLine <= o.endLine
    ensures Find(Sort(ByPosition(), owners), HasId(id)) == Some(owner) <==> IsUppermost(owners, id, owner)
  {
    var ordered := Sort(ByPosition(), owners);
    SortedMembers(owners);
    SortSorts(ByPosition(), owners);
    hide Find, Sort, OwnersDisjoint;
    var found := Find(ordered, HasId(id));
    forall o | o in owners && o.id == id ensures found.Some? && IsUppermost(owners, id, found.value) {
      assert o in ordered;
      var k :| 0 <= k < |ordered| && ordered[k] == o;
      assert HasId(id)(ordered[k]);
      FoundIsFirst(ordered, id, found.value);
    }
    if IsUppermost(owners, id, owner) {
      StartsOnce(owners, owner, found.value);
    }
  }

  lemma FoundIsFirst(ordered: seq<LineOwner>, id: string, owner: LineOwner)
    requires SortedBy(ByPosition(), ordered) && Find(ordered, HasId(id)) == Some(owner)
    ensures forall other :: other in ordered && other.id == id ==> owner.startLine <= other.startLine
  {
    forall other | other in ordered && other.id == id ensures owner.startLine <= other.startLine {
      var k :| 0 <= k < |ordered| && ordered[k] == other;
      var first := LeastWith(ordered, id, k);
      FindIsFirst(ordered, HasId(id), first);
      assert first < k ==> ByPosition()(ordered[first], ordered[k]);
    }
  }

  lemma LeastWith(ordered: seq<LineOwner>, id: string, k: nat) returns (first: nat)
    requires k < |ordered| && ordered[k].id == id
    ensures first <= k && ordered[first].id == id && forall j :: 0 <= j < first ==> ordered[j].id != id
  {
    first := 0;
    while ordered[first].id != id
      invariant first <= k && forall j :: 0 <= j < first ==> ordered[j].id != id
      decreases k - first
    {
      first := first + 1;
    }
  }

  lemma StartsOnce(owners: seq<LineOwner>, a: LineOwner, b: LineOwner)
    requires OwnersDisjoint(owners) && a in owners && b in owners && a.startLine == b.startLine
    requires a.startLine <= a.endLine && b.startLine <= b.endLine
    ensures a == b
  {
    var j :| 0 <= j < |owners| && owners[j] == a;
    var k :| 0 <= k < |owners| && owners[k] == b;
  }

  lemma FitsIsStanding(lineCount: nat, owners: seq<LineOwner>, boundary: Boundary)
    requires OwnersDisjoint(owners) && AllSound(lineCount, owners)
    ensures BoundaryFits(lineCount, Sort(ByPosition(), owners), boundary) <==> Stands(lineCount, owners, boundary)
  {
    var ordered := Sort(ByPosition(), owners);
    forall owner
      ensures Find(ordered, HasId(boundary.ownerId)) == Some(owner) <==> IsUppermost(owners, boundary.ownerId, owner)
    {
      FoundIsUppermost(owners, boundary.ownerId, owner);
    }
    hide Find, Sort, OwnersDisjoint, IsUppermost, HasId, ByPosition, AllSound;
    var found := Find(ordered, HasId(boundary.ownerId));
    assert found.Some? ==> IsUppermost(owners, boundary.ownerId, found.value);
  }

  lemma SoundIsInRange(lineCount: nat, owners: seq<LineOwner>)
    ensures OwnersInRange(lineCount, owners) <==> AllSound(lineCount, owners)
  {
    assert forall k :: 0 <= k < |owners| ==> owners[k] in owners;
  }

  /** When a layout is refused, and as what: owners first, then shared lines, then boundaries. */
  lemma RefusalsAreExact(lineCount: nat, owners: seq<LineOwner>, boundaries: seq<Boundary>)
    ensures var refusal := Refusal(lineCount, owners, boundaries);
            && (refusal == Some(InvalidOwner) <==> !AllSound(lineCount, owners))
            && (refusal == Some(OwnersOverlap) <==> AllSound(lineCount, owners) && ShareLine(owners))
            && (refusal == Some(InvalidBoundary) <==>
                && AllSound(lineCount, owners) && !ShareLine(owners)
                && exists b :: b in boundaries && !Stands(lineCount, owners, b))
  {
    hide OwnersInRange, AllSound, NeighboursApart, ShareLine, OwnersDisjoint, BoundaryFits, Stands, Sort;
    SoundIsInRange(lineCount, owners);
    if AllSound(lineCount, owners) {
      NeighboursDecideOverlap(lineCount, owners);
      DisjointIsUnshared(lineCount, owners);
      if OwnersDisjoint(owners) {
        forall b ensures BoundaryFits(lineCount, Sort(ByPosition(), owners), b) <==> Stands(lineCount, owners, b) {
          FitsIsStanding(lineCount, owners, b);
        }
        if b :| b in boundaries && !Stands(lineCount, owners, b) {
          var k :| 0 <= k < |boundaries| && boundaries[k] == b;
        }
      }
    }
  }

  /** A gap is named by its lines and carries them; its kind says which of its sides has an owner. */
  lemma GapsCarryTheirLines(lines: seq<string>, owners: seq<LineOwner>, boundaries: seq<Boundary>, gaps: seq<Gap>,
                            gap: Gap)
    requires GapsOf(lines, owners, boundaries, gaps) && gap in gaps
    ensures 1 <= gap.startLine <= gap.endLine <= |lines|
    ensures gap.id == "layout-gap:" + Decimal(gap.startLine) + "-" + Decimal(gap.endLine)
    ensures |gap.lines| == gap.endLine + 1 - gap.startLine
    ensures forall k :: 0 <= k < |gap.lines| ==> gap.lines[k] == lines[gap.startLine - 1 + k] && IsBlank(gap.lines[k])
    ensures gap.startLine == 1 || !IsBlank(lines[gap.startLine - 2])
    ensures gap.endLine == |lines| || !IsBlank(lines[gap.endLine])
    ensures gap.kind == if gap.beforeOwnerId.None? then "preamble" else if gap.afterOwnerId.None? then "postlude"
                        else "interstitial"
  {
    hide EdgesOf, Decimal;
    assert IsGapOf(lines, owners, boundaries, gap);
  }
}
