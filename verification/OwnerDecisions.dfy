/** The decision for every owner of a three-way merge. */
module OwnerDecisions {
  import opened Wrappers
  import opened Sequences
  import opened Text
  import opened Bytes
  import opened Documents
  import opened ByteEvidence

  // ----- one owner: the reference rule and the classifier

  datatype Verdict = Keep(value: Option<string>) | Clash

  /** The diff3 rule on values that may be absent: equal tips win, else the tip that moved away from the base. */
  function Diff3(base: Option<string>, ours: Option<string>, theirs: Option<string>): Verdict {
    if ours == theirs then Keep(ours)
    else if base == ours then Keep(theirs)
    else if base == theirs then Keep(ours)
    else Clash
  }

  datatype DecisionKind =
    | SelectOurs
    | SelectTheirs
    | Delete
    | ConflictEditEdit
    | ConflictDeleteModify
    | ConflictAddAdd
  {
    predicate IsConflict() {
      ConflictEditEdit? || ConflictDeleteModify? || ConflictAddAdd?
    }
  }

  /** `classify_owner`, case by case. */
  function ClassifyOwner(base: Option<Owner>, ours: Option<Owner>, theirs: Option<Owner>): DecisionKind
    requires base.Some? || ours.Some? || theirs.Some?
  {
    match (base, ours, theirs)
    case (Some(b), Some(o), Some(t)) =>
      if o.fingerprint == t.fingerprint || b.fingerprint == t.fingerprint then SelectOurs
      else if b.fingerprint == o.fingerprint then SelectTheirs
      else ConflictEditEdit
    case (Some(b), Some(o), None) => if b.fingerprint == o.fingerprint then Delete else ConflictDeleteModify
    case (Some(b), None, Some(t)) => if b.fingerprint == t.fingerprint then Delete else ConflictDeleteModify
    case (Some(_), None, None) => Delete
    case (None, Some(o), Some(t)) => if o.fingerprint == t.fingerprint then SelectOurs else ConflictAddAdd
    case (None, Some(_), None) => SelectOurs
    case (None, None, Some(_)) => SelectTheirs
  }

  /** The classifier computes diff3 on fingerprints, and selects only sides that are there. */
  lemma ClassifyIsDiff3(base: Option<Owner>, ours: Option<Owner>, theirs: Option<Owner>)
    requires base.Some? || ours.Some? || theirs.Some?
    ensures var kind := ClassifyOwner(base, ours, theirs);
            var verdict := Diff3(FingerprintOf(base), FingerprintOf(ours), FingerprintOf(theirs));
            && (kind.IsConflict() <==> verdict == Clash)
            && (kind == SelectOurs ==> ours.Some? && verdict == Keep(FingerprintOf(ours)))
            && (kind == SelectTheirs ==> theirs.Some? && verdict == Keep(FingerprintOf(theirs)))
            && (kind == Delete ==> verdict == Keep(None))
  {}

  // ----- what is reported about one owner

  datatype OwnedRegion = OwnedRegion(nodeId: string, range: ByteRange, startLine: nat, endLine: nat)

  /** One side of a decision; a missing owner has no region. */
  datatype Alternative = Alternative(revision: SourceRevision, region: Option<OwnedRegion>)

  function AlternativeOf(revision: SourceRevision, owner: Option<Owner>): Alternative {
    match owner
    case None => Alternative(revision, None)
    case Some(o) => Alternative(revision, Some(OwnedRegion(o.id, ByteRange(o.start, o.end), o.startLine, o.endLine)))
  }

  datatype MergeConflict = MergeConflict(conflictId: string, path: string, alternatives: seq<Alternative>)

  datatype OwnerDecision = OwnerDecision(
    id: string,
    ownerId: string,
    path: string,
    kind: DecisionKind,
    alternatives: seq<Alternative>,
    conflictId: Option<string>)

  datatype Classification = Classification(
    baseEqualsOurs: bool,
    baseEqualsTheirs: bool,
    oursEqualsTheirs: bool,
    wholeSourceSelection: Option<SourceRevision>,
    decisions: seq<OwnerDecision>)

  // ----- the inputs of a merge

  datatype Inputs = Inputs(base: Document, ours: Document, theirs: Document) {
    predicate Valid() {
      ValidDocument(base) && ValidDocument(ours) && ValidDocument(theirs)
    }

    function Sources(): ByteEvidence.Sources {
      map[Base := base.source, Ours := ours.source, Theirs := theirs.source]
    }

    /** A whole source answers the merge without looking at owners. */
    function Shortcut(): Option<SourceRevision> {
      if ours.source == theirs.source || base.source == theirs.source then Some(Ours)
      else if base.source == ours.source then Some(Theirs)
      else None
    }

    function Swapped(): Inputs {
      Inputs(base, theirs, ours)
    }

    predicate Knows(id: string)
      requires Valid()
    {
      Lookup(base, id).Some? || Lookup(ours, id).Some? || Lookup(theirs, id).Some?
    }

    function Kind(id: string): DecisionKind
      requires Valid() && Knows(id)
    {
      ClassifyOwner(Lookup(base, id), Lookup(ours, id), Lookup(theirs, id))
    }

    function Alternatives(id: string): seq<Alternative>
      requires Valid()
    {
      [AlternativeOf(Base, Lookup(base, id)), AlternativeOf(Ours, Lookup(ours, id)),
       AlternativeOf(Theirs, Lookup(theirs, id))]
    }

    /** The path shown for an owner: ours if it has one, else theirs, else the base's. */
    function PathOf(id: string): string
      requires Valid() && Knows(id)
    {
      if Lookup(ours, id).Some? then Lookup(ours, id).value.path
      else if Lookup(theirs, id).Some? then Lookup(theirs, id).value.path
      else Lookup(base, id).value.path
    }

    function ConflictAt(id: string): MergeConflict
      requires Valid() && Knows(id)
    {
      MergeConflict("declaration:" + id, PathOf(id), Alternatives(id))
    }

    function DecisionAt(id: string, index: nat): OwnerDecision
      requires Valid() && Knows(id)
    {
      OwnerDecision(Numbered("decision.owner.", index), id, PathOf(id), Kind(id), Alternatives(id),
                    if Kind(id).IsConflict() then Some(ConflictAt(id).conflictId) else None)
    }

    function Reference(id: string): Verdict
      requires Valid()
    {
      Diff3(Fingerprint(base, id), Fingerprint(ours, id), Fingerprint(theirs, id))
    }
  }

  // ----- every owner identity once

  function AllOwnerIds(inputs: Inputs): seq<string> {
    FirstOccurrences(OwnerIds(inputs.base) + OwnerIds(inputs.ours) + OwnerIds(inputs.theirs))
  }

  method CollectOwnerIds(inputs: Inputs) returns (ids: seq<string>)
    ensures ids == AllOwnerIds(inputs)
  {
    ids := [];
    var all := OwnerIds(inputs.base) + OwnerIds(inputs.ours) + OwnerIds(inputs.theirs);
    for k := 0 to |all|
      invariant ids == FirstOccurrences(all[..k])
    {
      assert all[..k + 1][..k] == all[..k];
      if all[k] !in ids {
        ids := ids + [all[k]];
      }
    }
    assert all[..|all|] == all;
  }

  lemma AllIdsAreKnown(inputs: Inputs, id: string)
    requires inputs.Valid()
    ensures id in AllOwnerIds(inputs) <==> inputs.Knows(id)
  {
    IdIsOwned(inputs.base, id);
    IdIsOwned(inputs.ours, id);
    IdIsOwned(inputs.theirs, id);
  }

  // ----- all decisions

  predicate AllKnown(inputs: Inputs, ids: seq<string>)
    requires inputs.Valid()
  {
    forall k :: 0 <= k < |ids| ==> inputs.Knows(ids[k])
  }

  function DecisionsFor(inputs: Inputs, ids: seq<string>): (decisions: seq<OwnerDecision>)
    requires inputs.Valid() && AllKnown(inputs, ids)
    ensures |decisions| == |ids|
  {
    seq(|ids|, k requires 0 <= k < |ids| => inputs.DecisionAt(ids[k], k))
  }

  /** The side each kept owner is taken from. */
  function SelectedFrom(inputs: Inputs, ids: seq<string>): map<string, SourceRevision>
    requires inputs.Valid() && AllKnown(inputs, ids)
  {
    map id | id in ids && (inputs.Kind(id) == SelectOurs || inputs.Kind(id) == SelectTheirs) ::
      if inputs.Kind(id) == SelectOurs then Ours else Theirs
  }

  /** One conflict per owner that clashes, in the order of `ids`. */
  function ConflictsIn(inputs: Inputs, ids: seq<string>): seq<MergeConflict>
    requires inputs.Valid() && AllKnown(inputs, ids)
  {
    if ids == [] then []
    else
      var n := |ids| - 1;
      ConflictsIn(inputs, ids[..n]) + if inputs.Kind(ids[n]).IsConflict() then [inputs.ConflictAt(ids[n])] else []
  }

  lemma AllOwnerIdsAreKnown(inputs: Inputs)
    requires inputs.Valid()
    ensures AllKnown(inputs, AllOwnerIds(inputs))
  {
    forall k | 0 <= k < |AllOwnerIds(inputs)| ensures inputs.Knows(AllOwnerIds(inputs)[k]) {
      AllIdsAreKnown(inputs, AllOwnerIds(inputs)[k]);
    }
  }

  lemma DecisionsGrow(inputs: Inputs, ids: seq<string>, id: string)
    requires inputs.Valid() && AllKnown(inputs, ids) && inputs.Knows(id)
    ensures DecisionsFor(inputs, ids + [id]) == DecisionsFor(inputs, ids) + [inputs.DecisionAt(id, |ids|)]
  {}

  lemma SelectedGrows(inputs: Inputs, ids: seq<string>, id: string)
    requires inputs.Valid() && AllKnown(inputs, ids) && inputs.Knows(id)
    ensures SelectedFrom(inputs, ids + [id]) ==
            match inputs.Kind(id)
            case SelectOurs => SelectedFrom(inputs, ids)[id := Ours]
            case SelectTheirs => SelectedFrom(inputs, ids)[id := Theirs]
            case _ => SelectedFrom(inputs, ids)
  {
    hide Inputs.Kind, Inputs.Knows, Inputs.Valid;
  }

  lemma ConflictsGrow(inputs: Inputs, ids: seq<string>, id: string)
    requires inputs.Valid() && AllKnown(inputs, ids) && inputs.Knows(id)
    ensures ConflictsIn(inputs, ids + [id]) ==
            ConflictsIn(inputs, ids) + if inputs.Kind(id).IsConflict() then [inputs.ConflictAt(id)] else []
  {
    assert (ids + [id])[..|ids|] == ids;
  }

  lemma NothingDecided(inputs: Inputs)
    requires inputs.Valid()
    ensures DecisionsFor(inputs, []) == [] && SelectedFrom(inputs, []) == map[] && ConflictsIn(inputs, []) == []
  {}

  /** The decision loop of `merge_owners`. */
  method DecideOwners(inputs: Inputs)
    returns (decisions: seq<OwnerDecision>, selected: map<string, SourceRevision>, conflicts: seq<MergeConflict>)
    requires inputs.Valid()
    ensures AllKnown(inputs, AllOwnerIds(inputs))
    ensures decisions == DecisionsFor(inputs, AllOwnerIds(inputs))
    ensures selected == SelectedFrom(inputs, AllOwnerIds(inputs))
    ensures conflicts == ConflictsIn(inputs, AllOwnerIds(inputs))
  {
    hide DecisionsFor, SelectedFrom, ConflictsIn, Inputs.Kind, Inputs.Knows, Inputs.Valid, AllOwnerIds,
      Inputs.DecisionAt, Inputs.ConflictAt;
    AllOwnerIdsAreKnown(inputs);
    NothingDecided(inputs);
    decisions, selected, conflicts := [], map[], [];
    var ids := CollectOwnerIds(inputs);
    assert ids[..0] == [] && ids[..|ids|] == ids;
    for k := 0 to |ids|
      invariant decisions == DecisionsFor(inputs, ids[..k])
      invariant selected == SelectedFrom(inputs, ids[..k])
      invariant conflicts == ConflictsIn(inputs, ids[..k])
    {
      var id := ids[k];
      assert inputs.Knows(id) && AllKnown(inputs, ids[..k]);
      DecisionsGrow(inputs, ids[..k], id);
      SelectedGrows(inputs, ids[..k], id);
      ConflictsGrow(inputs, ids[..k], id);
      assert ids[..k + 1] == ids[..k] + [id];
      match inputs.Kind(id) {
        case SelectOurs => selected := selected[id := Ours];
        case SelectTheirs => selected := selected[id := Theirs];
        case Delete =>
        case _ => conflicts := conflicts + [inputs.ConflictAt(id)];
      }
      decisions := decisions + [inputs.DecisionAt(id, |decisions|)];
    }
  }

  /**
   * Every identity that some document knows, and no other, has exactly one decision; no two
   * decisions share an owner or a decision id.
   */
  lemma EveryOwnerDecidedOnce(inputs: Inputs)
    requires inputs.Valid()
    ensures AllKnown(inputs, AllOwnerIds(inputs))
    ensures var decisions := DecisionsFor(inputs, AllOwnerIds(inputs));
            && (forall id :: inputs.Knows(id) <==> exists k :: 0 <= k < |decisions| && decisions[k].ownerId == id)
            && (forall i, j :: 0 <= i < j < |decisions| ==>
                  decisions[i].ownerId != decisions[j].ownerId && decisions[i].id != decisions[j].id)
  {
    AllOwnerIdsAreKnown(inputs);
    var ids := AllOwnerIds(inputs);
    var decisions := DecisionsFor(inputs, ids);
    assert forall k :: 0 <= k < |ids| ==> decisions[k] == inputs.DecisionAt(ids[k], k);
    hide Inputs.Kind, Inputs.Knows, Inputs.Valid, AllOwnerIds, Numbered, Inputs.ConflictAt, Inputs.PathOf,
      Inputs.Alternatives;
    forall id ensures inputs.Knows(id) <==> exists k :: 0 <= k < |decisions| && decisions[k].ownerId == id {
      AllIdsAreKnown(inputs, id);
      if id in ids {
        var k :| 0 <= k < |ids| && ids[k] == id;
        assert decisions[k].ownerId == id;
      }
    }
    assert Distinct(ids) by { IdsAreDistinct(inputs); }
    forall i, j | 0 <= i < j < |decisions|
      ensures decisions[i].ownerId != decisions[j].ownerId && decisions[i].id != decisions[j].id
    {
      NumberedInjective("decision.owner.", i, j);
    }
  }

  lemma IdsAreDistinct(inputs: Inputs)
    ensures Distinct(AllOwnerIds(inputs))
  {}
}
