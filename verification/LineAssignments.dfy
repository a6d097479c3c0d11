/** From the augmenters' output to line facts: every comment region gets exactly one owner or root place. */
module LineAssignments {
  import opened Wrappers
  import opened Sequences
  import opened Text
  import D = LineDispositions
  import L = LayoutGaps
  import P = LayoutGapProperties
  import C = Comments

  type LineOwner = D.LineOwner

  /** Where a region id is assigned: to an owner's side, or to a place of the root. */
  datatype Place = Place(regionId: string, ownerId: Option<string>, kind: string, selectionKey: string)

  function AtOwner(regionId: Option<string>, ownerId: string, kind: string): seq<Place> {
    if regionId.Some? then [Place(regionId.value, Some(ownerId), kind, "comment:" + ownerId + ":" + kind)] else []
  }

  function PlacesOf(a: C.Attachment): seq<Place> {
    AtOwner(a.leadingRegionId, a.ownerId, "leading")
    + AtOwner(a.inlineRegionId, a.ownerId, "inline")
    + AtOwner(a.trailingRegionId, a.ownerId, "trailing")
  }

  /** The places that the first `n` attachments name. */
  function Attached(attachments: seq<C.Attachment>, n: nat): seq<Place>
    requires n <= |attachments|
  {
    if n == 0 then [] else Attached(attachments, n - 1) + PlacesOf(attachments[n - 1])
  }

  function AtRoot(regionId: Option<string>, kind: string): seq<Place> {
    if regionId.Some? then [Place(regionId.value, None, kind, "root:" + kind)] else []
  }

  function OrphanPlace(regionId: string, index: nat): Place {
    Place(regionId, None, "orphan", Numbered("root:orphan:", index))
  }

  function Orphans(ids: seq<string>): (places: seq<Place>)
    ensures |places| == |ids|
  {
    seq(|ids|, k requires 0 <= k < |ids| => OrphanPlace(ids[k], k))
  }

  function Roots(a: C.Augmentation): seq<Place> {
    AtRoot(a.preambleRegionId, "preamble") + AtRoot(a.postludeRegionId, "postlude") + Orphans(a.orphanRegionIds)
  }

  function PlaceId(p: Place): string { p.regionId }

  function Ids(places: seq<Place>): seq<string> { Map(PlaceId, places) }

  function RegionIdOf(r: C.Region): string { r.id }

  function RegionIds(a: C.Augmentation): seq<string> { Map(RegionIdOf, a.regions) }

  // ----- the table of places

  /** The table holds exactly these places, under distinct ids. */
  ghost predicate Tabulates(table: map<string, Place>, places: seq<Place>) {
    && Distinct(Ids(places))
    && (forall id :: id in table <==> id in Ids(places))
    && (forall k :: 0 <= k < |places| ==> places[k].regionId in table && table[places[k].regionId] == places[k])
  }

  lemma TabulateOne(table: map<string, Place>, places: seq<Place>, p: Place)
    requires Tabulates(table, places)
    ensures Ids(places + [p]) == Ids(places) + [p.regionId]
    ensures p.regionId !in table ==> Tabulates(table[p.regionId := p], places + [p])
    ensures p.regionId in table ==> !Distinct(Ids(places + [p]))
  {
    assert Ids(places + [p]) == Ids(places) + [p.regionId];
    assert forall k :: 0 <= k < |places| ==> Ids(places)[k] == places[k].regionId;
    if p.regionId in table {
      var k :| 0 <= k < |places| && Ids(places)[k] == p.regionId;
      assert Ids(places + [p])[k] == Ids(places + [p])[|places|];
    }
  }

  lemma PrefixDistinct(a: seq<string>, b: seq<string>)
    requires Distinct(a + b)
    ensures Distinct(a)
  {
    assert forall i :: 0 <= i < |a| ==> (a + b)[i] == a[i];
  }

  lemma IdsAppend(a: seq<Place>, b: seq<Place>)
    ensures Ids(a + b) == Ids(a) + Ids(b)
  {}

  /** Insert places one by one; stop at an id that has a place already. */
  method Insert(table: map<string, Place>, more: seq<Place>, ghost places: seq<Place>)
    returns (ok: bool, now: map<string, Place>)
    requires Tabulates(table, places)
    ensures ok <==> Distinct(Ids(places + more))
    ensures ok ==> Tabulates(now, places + more)
  {
    hide Tabulates, Distinct;
    now := table;
    assert places + more[..0] == places && more[..|more|] == more;
    for k := 0 to |more|
      invariant Tabulates(now, places + more[..k])
    {
      ghost var before := places + more[..k];
      assert more[..k + 1] == more[..k] + [more[k]];
      Associative(places, more[..k], [more[k]]);
      TabulateOne(now, before, more[k]);
      if more[k].regionId in now {
        assert places + more == (before + [more[k]]) + more[k + 1..] by {
          assert more == more[..k + 1] + more[k + 1..];
        }
        IdsAppend(before + [more[k]], more[k + 1..]);
        if Distinct(Ids(places + more)) {
          PrefixDistinct(Ids(before + [more[k]]), Ids(more[k + 1..]));
        }
        return false, now;
      }
      now := now[more[k].regionId := more[k]];
    }
    assert Distinct(Ids(places + more)) by { TabulatedIsDistinct(now, places + more); }
    ok := true;
  }

  lemma TabulatedIsDistinct(table: map<string, Place>, places: seq<Place>)
    requires Tabulates(table, places)
    ensures Distinct(Ids(places))
    ensures forall id :: id in table <==> id in Ids(places)
  {}

  lemma NothingTabulated()
    ensures Tabulates(map[], [])
  {}

  /** The attachment loop. */
  method TabulateAttachments(attachments: seq<C.Attachment>) returns (ok: bool, table: map<string, Place>)
    ensures ok <==> Distinct(Ids(Attached(attachments, |attachments|)))
    ensures ok ==> Tabulates(table, Attached(attachments, |attachments|))
  {
    hide Tabulates, Distinct, PlacesOf;
    table := map[];
    NothingTabulated();
    for n := 0 to |attachments|
      invariant Tabulates(table, Attached(attachments, n))
    {
      ok, table := Insert(table, PlacesOf(attachments[n]), Attached(attachments, n));
      if !ok {
        AttachedPrefix(attachments, n + 1);
        return;
      }
    }
    TabulatedIsDistinct(table, Attached(attachments, |attachments|));
    ok := true;
  }

  lemma {:induction false} AttachedPrefix(attachments: seq<C.Attachment>, n: nat)
    requires n <= |attachments|
    ensures Distinct(Ids(Attached(attachments, |attachments|))) ==> Distinct(Ids(Attached(attachments, n)))
    decreases |attachments| - n
  {
    hide PlacesOf, Distinct, Ids;
    if n < |attachments| {
      AttachedPrefix(attachments, n + 1);
      IdsAppend(Attached(attachments, n), PlacesOf(attachments[n]));
      if Distinct(Ids(Attached(attachments, n + 1))) {
        PrefixDistinct(Ids(Attached(attachments, n)), Ids(PlacesOf(attachments[n])));
      }
    }
  }

  /** The preamble, the postlude and the orphans. */
  method TabulateRoots(a: C.Augmentation) returns (ok: bool, table: map<string, Place>)
    ensures ok <==> Distinct(Ids(Roots(a)))
    ensures ok ==> Tabulates(table, Roots(a))
  {
    hide Tabulates, Distinct, AtRoot, Orphans;
    NothingTabulated();
    var places := AtRoot(a.preambleRegionId, "preamble") + AtRoot(a.postludeRegionId, "postlude")
        + Orphans(a.orphanRegionIds);
    assert [] + places == places;
    ok, table := Insert(map[], places, []);
  }

  // ----- every region has exactly one place

  /** No two regions share an id, and the assigned ids are the region ids, each once. */
  predicate AssignedOnce(a: C.Augmentation) {
    && Distinct(RegionIds(a))
    && multiset(Ids(Attached(a.attachments, |a.attachments|)) + Ids(Roots(a))) == multiset(RegionIds(a))
  }

  function SetOf(s: seq<string>): (r: set<string>)
    ensures forall x :: x in r <==> x in s
  {
    set x | x in s
  }

  lemma DistinctSnoc(s: seq<string>, x: string)
    ensures Distinct(s + [x]) <==> Distinct(s) && x !in s
  {
    var longer := s + [x];
    assert longer[|s|] == x && forall k :: 0 <= k < |s| ==> longer[k] == s[k];
  }

  lemma {:induction false} SizeTellsDistinct(s: seq<string>)
    ensures |SetOf(s)| <= |s|
    ensures |SetOf(s)| == |s| <==> Distinct(s)
  {
    if s == [] {
      assert SetOf(s) == {};
    } else {
      var n := |s| - 1;
      SizeTellsDistinct(s[..n]);
      DistinctSnoc(s[..n], s[n]);
      hide Distinct;
      assert s == s[..n] + [s[n]];
      assert SetOf(s) == SetOf(s[..n]) + {s[n]};
      if s[n] in s[..n] {
        assert SetOf(s) == SetOf(s[..n]);
      }
    }
  }

  predicate NoneAmbiguous(attached: set<string>, roots: set<string>, ids: seq<string>) {
    forall k :: 0 <= k < |ids| ==> (ids[k] in attached) != (ids[k] in roots)
  }

  /** The checks made on the two tables, one after another. */
  predicate TablesCover(attached: set<string>, roots: set<string>, ids: seq<string>) {
    && |SetOf(ids)| == |ids|
    && (forall id :: id in attached + roots ==> id in ids)
    && |attached| + |roots| == |ids|
    && NoneAmbiguous(attached, roots, ids)
  }

  lemma CoverIsPermutation(a: seq<string>, b: seq<string>, ids: seq<string>)
    requires Distinct(a) && Distinct(b)
    ensures TablesCover(SetOf(a), SetOf(b), ids) <==> Distinct(ids) && multiset(a + b) == multiset(ids)
  {
    SizeTellsDistinct(ids);
    SizeTellsDistinct(a);
    SizeTellsDistinct(b);
    if TablesCover(SetOf(a), SetOf(b), ids) {
      DistinctIsMultiplicity(a);
      DistinctIsMultiplicity(b);
      DistinctIsMultiplicity(ids);
      hide Distinct;
      forall x ensures multiset(a + b)[x] == multiset(ids)[x] {
        assert multiset(a + b)[x] == multiset(a)[x] + multiset(b)[x];
        assert x in a <==> x in SetOf(a);
        assert x in b <==> x in SetOf(b);
        if x in ids {
          var k :| 0 <= k < |ids| && ids[k] == x;
        }
      }
    }
    if Distinct(ids) && multiset(a + b) == multiset(ids) {
      DistinctPermutes(a + b, ids);
      assert |multiset(a + b)| == |multiset(ids)|;
      forall k | 0 <= k < |ids| ensures (ids[k] in SetOf(a)) != (ids[k] in SetOf(b)) {
        assert ids[k] in multiset(ids);
        assert ids[k] in multiset(a + b);
        NotInBoth(a, b, ids[k]);
      }
      forall id | id in SetOf(a) + SetOf(b) ensures id in ids {
        assert id in a + b;
        assert id in multiset(a + b);
      }
    }
  }

  lemma NotInBoth(a: seq<string>, b: seq<string>, x: string)
    requires Distinct(a + b)
    ensures !(x in a && x in b)
  {
    assert forall i :: 0 <= i < |a| ==> (a + b)[i] == a[i];
    assert forall j :: 0 <= j < |b| ==> (a + b)[|a| + j] == b[j];
  }

  lemma DistinctParts(a: seq<string>, b: seq<string>, ids: seq<string>)
    requires Distinct(ids) && multiset(a + b) == multiset(ids)
    ensures Distinct(a) && Distinct(b)
  {
    DistinctPermutes(a + b, ids);
    assert forall i :: 0 <= i < |a| ==> (a + b)[i] == a[i];
    assert forall j :: 0 <= j < |b| ==> (a + b)[|a| + j] == b[j];
  }

  // ----- the checks, in their order

  datatype Fault =
    | SharedByOwners
    | SharedByRoots
    | RepeatedRegion
    | UnknownRegion
    | WrongCount
    | Ambiguous
    | NoLines
    | Refused(fault: D.Fault)

  function OwnedIds(a: C.Augmentation): seq<string> {
    Ids(Attached(a.attachments, |a.attachments|))
  }

  function RootIds(a: C.Augmentation): seq<string> {
    Ids(Roots(a))
  }

  /** The first fault of the tables as wholes. */
  function TableFault(a: C.Augmentation): Option<Fault> {
    if !Distinct(OwnedIds(a)) then Some(SharedByOwners)
    else if !Distinct(RootIds(a)) then Some(SharedByRoots)
    else if !Distinct(RegionIds(a)) then Some(RepeatedRegion)
    else if !(SetOf(OwnedIds(a)) + SetOf(RootIds(a)) <= SetOf(RegionIds(a))) then Some(UnknownRegion)
    else if |OwnedIds(a)| + |RootIds(a)| != |a.regions| then Some(WrongCount)
    else None
  }

  /** A region has a place on exactly one side, and lines. */
  function RegionFault(a: C.Augmentation, k: nat): Option<Fault>
    requires k < |a.regions|
  {
    var id := a.regions[k].id;
    if (id in OwnedIds(a)) == (id in RootIds(a)) then Some(Ambiguous)
    else if a.regions[k].nodes == [] then Some(NoLines)
    else None
  }

  /** The first fault among the first `n` regions. */
  function FirstRegionFault(a: C.Augmentation, n: nat): Option<Fault>
    requires n <= |a.regions|
  {
    if n == 0 then None
    else
      var before := FirstRegionFault(a, n - 1);
      if before.Some? then before else RegionFault(a, n - 1)
  }

  /** What the wrapper reports before it asks for the dispositions. */
  function AssignmentFault(a: C.Augmentation): Option<Fault> {
    var fault := TableFault(a);
    if fault.Some? then fault else FirstRegionFault(a, |a.regions|)
  }

  lemma {:induction false} NoRegionFault(a: C.Augmentation, n: nat)
    requires n <= |a.regions|
    ensures FirstRegionFault(a, n).None? <==> forall k :: 0 <= k < n ==> RegionFault(a, k).None?
  {
    hide RegionFault;
    if n > 0 {
      NoRegionFault(a, n - 1);
    }
  }

  lemma {:induction false} FaultStays(a: C.Augmentation, n: nat)
    requires n <= |a.regions| && FirstRegionFault(a, n).Some?
    ensures FirstRegionFault(a, |a.regions|) == FirstRegionFault(a, n)
    decreases |a.regions| - n
  {
    if n < |a.regions| {
      FaultStays(a, n + 1);
    }
  }

  /** The same checks on the keys of the two tables. */
  function KeysFault(attached: set<string>, roots: set<string>, ids: seq<string>): Option<Fault> {
    if |SetOf(ids)| != |ids| then Some(RepeatedRegion)
    else if !(attached + roots <= SetOf(ids)) then Some(UnknownRegion)
    else if |attached| + |roots| != |SetOf(ids)| then Some(WrongCount)
    else None
  }

  lemma KeysTellFault(a: C.Augmentation)
    requires Distinct(OwnedIds(a)) && Distinct(RootIds(a))
    ensures TableFault(a) == KeysFault(SetOf(OwnedIds(a)), SetOf(RootIds(a)), RegionIds(a))
  {
    hide OwnedIds, RootIds, SetOf, Distinct;
    SizeTellsDistinct(OwnedIds(a));
    SizeTellsDistinct(RootIds(a));
    SizeTellsDistinct(RegionIds(a));
  }

  lemma KeysCover(attached: set<string>, roots: set<string>, ids: seq<string>)
    ensures KeysFault(attached, roots, ids).None? && NoneAmbiguous(attached, roots, ids) <==>
            TablesCover(attached, roots, ids)
  {}

  lemma RegionsTellFault(a: C.Augmentation)
    ensures FirstRegionFault(a, |a.regions|).None? <==>
            NoneAmbiguous(SetOf(OwnedIds(a)), SetOf(RootIds(a)), RegionIds(a)) && AllHaveLines(a)
  {
    NoRegionFault(a, |a.regions|);
    hide OwnedIds, RootIds, FirstRegionFault;
    forall k | 0 <= k < |a.regions|
      ensures var id := RegionIds(a)[k];
              RegionFault(a, k).None? <==>
              (id in SetOf(OwnedIds(a))) != (id in SetOf(RootIds(a))) && a.regions[k].nodes != []
    {}
  }

  /** Nothing is reported if and only if every region has one place under an id of its own, and lines. */
  lemma FaultlessIsAssigned(a: C.Augmentation)
    ensures AssignmentFault(a).None? <==> AssignedOnce(a) && AllHaveLines(a)
  {
    hide Attached, Roots, Ids, RegionIds, Distinct, FirstRegionFault, KeysFault, NoneAmbiguous, TablesCover, SetOf,
      AllHaveLines;
    if AssignedOnce(a) {
      DistinctParts(OwnedIds(a), RootIds(a), RegionIds(a));
    }
    if Distinct(OwnedIds(a)) && Distinct(RootIds(a)) {
      KeysTellFault(a);
      KeysCover(SetOf(OwnedIds(a)), SetOf(RootIds(a)), RegionIds(a));
      RegionsTellFault(a);
      CoverIsPermutation(OwnedIds(a), RootIds(a), RegionIds(a));
    }
  }

  /** The checks on the tables as wholes. */
  method CheckAssignments(a: C.Augmentation)
    returns (fault: Option<Fault>, attached: map<string, Place>, roots: map<string, Place>)
    ensures fault == TableFault(a)
    ensures fault.None? ==>
              Tabulates(attached, Attached(a.attachments, |a.attachments|)) && Tabulates(roots, Roots(a))
  {
    hide Tabulates, Distinct, Attached, Roots, Ids, RegionIds, KeysFault;
    roots := map[];
    var ok;
    ok, attached := TabulateAttachments(a.attachments);
    if !ok {
      return Some(SharedByOwners), attached, roots;
    }
    ok, roots := TabulateRoots(a);
    if !ok {
      return Some(SharedByRoots), attached, roots;
    }
    TabulatedIsDistinct(attached, Attached(a.attachments, |a.attachments|));
    TabulatedIsDistinct(roots, Roots(a));
    assert attached.Keys == SetOf(OwnedIds(a)) && roots.Keys == SetOf(RootIds(a));
    hide TableFault, OwnedIds, RootIds;
    KeysTellFault(a);
    fault := CompareKeys(attached.Keys, roots.Keys, RegionIds(a));
  }

  method CompareKeys(attached: set<string>, roots: set<string>, ids: seq<string>) returns (fault: Option<Fault>)
    ensures fault == KeysFault(attached, roots, ids)
  {
    var distinct := SetOf(ids);
    if |distinct| != |ids| {
      return Some(RepeatedRegion);
    }
    if !(attached + roots <= distinct) {
      return Some(UnknownRegion);
    }
    if |attached| + |roots| != |distinct| {
      return Some(WrongCount);
    }
    return None;
  }

  // ----- line facts of the regions

  /** The least line of some nodes. */
  function FirstLine(nodes: seq<C.CommentLine>): (line: nat)
    requires nodes != []
    ensures forall k :: 0 <= k < |nodes| ==> line <= nodes[k].lineNumber
    ensures exists node :: node in nodes && line == node.lineNumber
  {
    if |nodes| == 1 then nodes[0].lineNumber
    else
      var rest := FirstLine(nodes[1..]);
      if nodes[0].lineNumber <= rest then nodes[0].lineNumber else rest
  }

  /** The greatest line of some nodes. */
  function LastLine(nodes: seq<C.CommentLine>): (line: nat)
    requires nodes != []
    ensures forall k :: 0 <= k < |nodes| ==> nodes[k].lineNumber <= line
    ensures exists node :: node in nodes && line == node.lineNumber
  {
    if |nodes| == 1 then nodes[0].lineNumber
    else
      var rest := LastLine(nodes[1..]);
      if nodes[0].lineNumber >= rest then nodes[0].lineNumber else rest
  }

  /** A region inside an owner's span belongs to that owner, whatever owner it was attached to. */
  function Normalised(owners: seq<LineOwner>, region: D.LineRegion): D.LineRegion {
    if region.ownerId.None? then region
    else
      match D.Containing(owners, region)
      case None => region
      case Some(owner) =>
        region.(ownerId := Some(owner.id), selectionKey := "comment:" + owner.id + ":" + region.kind)
  }

  function LineRegionAt(region: C.Region, place: Place): D.LineRegion
    requires region.nodes != []
  {
    D.LineRegion(region.id, place.selectionKey, place.ownerId, place.kind, FirstLine(region.nodes),
                 LastLine(region.nodes))
  }

  predicate AllHaveLines(a: C.Augmentation) {
    forall k :: 0 <= k < |a.regions| ==> a.regions[k].nodes != []
  }

  function PlaceHas(id: string): Place -> bool {
    (p: Place) => p.regionId == id
  }

  /** The place of a region: on an owner's side if it has one, else at the root. */
  function PlaceFor(a: C.Augmentation, id: string): Option<Place> {
    Find(Attached(a.attachments, |a.attachments|) + Roots(a), PlaceHas(id))
  }

  lemma EveryRegionHasPlace(a: C.Augmentation, k: nat)
    requires AssignedOnce(a) && k < |a.regions|
    ensures PlaceFor(a, a.regions[k].id).Some?
  {
    var owned, rooted, id := Attached(a.attachments, |a.attachments|), Roots(a), a.regions[k].id;
    hide Attached, Roots, Distinct;
    assert RegionIds(a)[k] == id;
    assert id in multiset(RegionIds(a));
    assert id in Ids(owned) + Ids(rooted);
    IdsAppend(owned, rooted);
    var j :| 0 <= j < |owned + rooted| && Ids(owned + rooted)[j] == id;
    assert PlaceHas(id)((owned + rooted)[j]);
  }

  function RegionFacts(a: C.Augmentation, owners: seq<LineOwner>): seq<D.LineRegion>
    requires AssignedOnce(a) && AllHaveLines(a)
  {
    seq(|a.regions|, k requires 0 <= k < |a.regions| =>
      EveryRegionHasPlace(a, k);
      Normalised(owners, LineRegionAt(a.regions[k], PlaceFor(a, a.regions[k].id).value)))
  }

  /** Looking a place up in the tables finds the same as searching both lists. */
  lemma TablesFind(owned: seq<Place>, rooted: seq<Place>, attached: map<string, Place>, roots: map<string, Place>,
                   id: string)
    requires Tabulates(attached, owned) && Tabulates(roots, rooted)
    requires !(id in Ids(owned) && id in Ids(rooted))
    ensures Find(owned + rooted, PlaceHas(id)) ==
            if id in attached then Some(attached[id]) else if id in roots then Some(roots[id]) else None
  {
    hide Distinct, Find;
    var found := Find(owned + rooted, PlaceHas(id));
    if found.Some? {
      var i :| 0 <= i < |owned + rooted| && (owned + rooted)[i] == found.value;
      if i < |owned| {
        assert owned[i] == found.value && Ids(owned)[i] == id;
      } else {
        assert rooted[i - |owned|] == found.value && Ids(rooted)[i - |owned|] == id;
      }
    } else {
      forall i | 0 <= i < |owned| ensures Ids(owned)[i] != id {
        assert !PlaceHas(id)((owned + rooted)[i]);
      }
      forall i | 0 <= i < |rooted| ensures Ids(rooted)[i] != id {
        assert !PlaceHas(id)((owned + rooted)[|owned| + i]);
      }
    }
  }

  /** One turn of the region loop: the region's place, or its fault. */
  method LocateRegion(a: C.Augmentation, attached: map<string, Place>, roots: map<string, Place>, k: nat)
    returns (r: Result<Place, Fault>)
    requires k < |a.regions|
    requires Tabulates(attached, Attached(a.attachments, |a.attachments|)) && Tabulates(roots, Roots(a))
    ensures match RegionFault(a, k)
            case Some(fault) => r == Err(fault)
            case None => r.Ok? && PlaceFor(a, a.regions[k].id) == Some(r.value)
  {
    hide Attached, Roots, Distinct, Ids, Find;
    var region := a.regions[k];
    if (region.id in attached) == (region.id in roots) {
      return Err(Ambiguous);
    }
    if region.nodes == [] {
      return Err(NoLines);
    }
    TablesFind(Attached(a.attachments, |a.attachments|), Roots(a), attached, roots, region.id);
    return Ok(if region.id in attached then attached[region.id] else roots[region.id]);
  }

  /** `source_line_dispositions_from_augmentations`. */
  method DispositionsFromAugmentations(source: string, owners: seq<LineOwner>, a: C.Augmentation, gaps: seq<L.Gap>)
    returns (r: Result<seq<D.Disposition>, Fault>)
    ensures AssignmentFault(a).Some? ==> r == Err(AssignmentFault(a).value)
    ensures AssignmentFault(a).None? ==>
              && AssignedOnce(a) && AllHaveLines(a)
              && var lines := SplitInclusive(source, '\n');
                 var facts := D.Facts(owners, RegionFacts(a, owners), Map(P.AsLineGap, gaps));
                 r == match D.Refusal(lines, facts)
                      case Some(fault) => Err(Refused(fault))
                      case None => Ok(D.Records(lines, facts))
  {
    hide AssignedOnce, Tabulates, PlaceFor, Normalised, LineRegionAt, D.Refusal, D.Records, SplitInclusive, Attached,
      Roots, RegionFault, TableFault;
    FaultlessIsAssigned(a);
    var fault, attached, roots := CheckAssignments(a);
    if fault.Some? {
      return Err(fault.value);
    }
    var regions: seq<D.LineRegion> := [];
    for k := 0 to |a.regions|
      invariant FirstRegionFault(a, k).None? && |regions| == k
      invariant AssignedOnce(a) && AllHaveLines(a) ==>
                  forall j :: 0 <= j < k ==> regions[j] == RegionFacts(a, owners)[j]
    {
      var place := LocateRegion(a, attached, roots, k);
      if place.Err? {
        FaultStays(a, k + 1);
        return Err(place.error);
      }
      NoRegionFaultHasLines(a, k);
      regions := regions + [Normalised(owners, LineRegionAt(a.regions[k], place.value))];
    }
    assert regions == RegionFacts(a, owners);
    var answer := D.SourceLineDispositions(source, owners, regions, Map(P.AsLineGap, gaps));
    r := match answer case Ok(records) => Ok(records) case Err(fault) => Err(Refused(fault));
  }

  lemma NoRegionFaultHasLines(a: C.Augmentation, k: nat)
    requires k < |a.regions| && RegionFault(a, k).None?
    ensures a.regions[k].nodes != []
  {}
}
