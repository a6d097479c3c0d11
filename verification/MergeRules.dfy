/** When the three-way merge refuses, which layout it keeps, and whose bytes it takes, said of the documents alone. */
module MergeRules {
  import opened Wrappers
  import opened Sequences
  import opened Bytes
  import opened Documents
  import opened LineLayout
  import opened ByteEvidence
  import opened OwnerDecisions
  import opened OwnerMerge
  import opened OwnerMergeProperties

  // ----- the kinds of decisions

  /** Which decision each situation of an owner leads to. */
  lemma KindsAreExact(base: Option<Owner>, ours: Option<Owner>, theirs: Option<Owner>)
    requires base.Some? || ours.Some? || theirs.Some?
    ensures var kind := ClassifyOwner(base, ours, theirs);
            var b, o, t := FingerprintOf(base), FingerprintOf(ours), FingerprintOf(theirs);
            && (kind == SelectOurs <==> o.Some? && (o == t || b == t))
            && (kind == SelectTheirs <==> t.Some? && o != t && b == o)
            && (kind == Delete <==> b.Some? && (o.None? || t.None?) && (o == b || t == b || o == t))
            && (kind == ConflictEditEdit <==> b.Some? && o.Some? && t.Some? && o != t && b != o && b != t)
            && (kind == ConflictDeleteModify <==>
                  b.Some? && ((o.None? && t.Some? && t != b) || (t.None? && o.Some? && o != b)))
            && (kind == ConflictAddAdd <==> b.None? && o.Some? && t.Some? && o != t)
  {}

  /** What a conflict and a decision show of an owner: its path and its three versions. */
  lemma ReportsAreExact(inputs: Inputs, id: string, index: nat)
    requires inputs.Valid() && inputs.Knows(id)
    ensures var base, ours, theirs := Lookup(inputs.base, id), Lookup(inputs.ours, id), Lookup(inputs.theirs, id);
            var conflict, decision := inputs.ConflictAt(id), inputs.DecisionAt(id, index);
            && conflict.conflictId == "declaration:" + id
            && (ours.Some? ==> conflict.path == ours.value.path)
            && (ours.None? && theirs.Some? ==> conflict.path == theirs.value.path)
            && (ours.None? && theirs.None? ==> conflict.path == base.value.path)
            && |conflict.alternatives| == 3
            && ShowsVersion(conflict.alternatives[0], Base, base)
            && ShowsVersion(conflict.alternatives[1], Ours, ours)
            && ShowsVersion(conflict.alternatives[2], Theirs, theirs)
            && decision.ownerId == id && decision.path == conflict.path
            && decision.kind == ClassifyOwner(base, ours, theirs)
            && decision.alternatives == conflict.alternatives
            && decision.conflictId == (if decision.kind.IsConflict() then Some(conflict.conflictId) else None)
  {
    hide Lookup, Inputs.Valid, ClassifyOwner;
  }

  /** The alternative is one document's version of an owner, or says that it has none. */
  predicate ShowsVersion(a: Alternative, revision: SourceRevision, owner: Option<Owner>) {
    && a.revision == revision
    && (a.region.Some? <==> owner.Some?)
    && (owner.Some? ==>
          a.region == Some(OwnedRegion(owner.value.id, ByteRange(owner.value.start, owner.value.end),
                                       owner.value.startLine, owner.value.endLine)))
  }

  // ----- which identities are kept, and whose version

  /** Diff3 keeps the identity with some fingerprint. */
  predicate Kept(inputs: Inputs, id: string)
    requires inputs.Valid()
  {
    var verdict := Diff3(Fingerprint(inputs.base, id), Fingerprint(inputs.ours, id), Fingerprint(inputs.theirs, id));
    verdict.Keep? && verdict.value.Some?
  }

  /** Diff3 keeps exactly the owners of the document. */
  ghost predicate KeepsExactly(inputs: Inputs, doc: Document)
    requires inputs.Valid()
  {
    forall id :: Kept(inputs, id) <==> id in OwnerIds(doc)
  }

  ghost predicate KeepsAll(inputs: Inputs, doc: Document)
    requires inputs.Valid()
  {
    forall id :: id in OwnerIds(doc) ==> Kept(inputs, id)
  }

  lemma KeptIsSelected(inputs: Inputs, id: string)
    requires inputs.Valid()
    ensures Kept(inputs, id) <==> id in Selected(inputs)
    ensures id in Selected(inputs) ==>
              (Selected(inputs)[id] == Theirs <==>
               Fingerprint(inputs.base, id) == Fingerprint(inputs.ours, id) != Fingerprint(inputs.theirs, id))
    ensures id in Selected(inputs) ==> Selected(inputs)[id] == Ours || Selected(inputs)[id] == Theirs
  {
    hide Lookup, ValidDocument, ClassifyOwner;
    AllIdsAreKnown(inputs, id);
    if inputs.Knows(id) {
      KindsAreExact(Lookup(inputs.base, id), Lookup(inputs.ours, id), Lookup(inputs.theirs, id));
    }
  }

  /**
   * The layout that is kept: ours if exactly its owners are kept; else theirs if exactly its owners are;
   * else ours, with theirs' new owners appended, if at least its owners are; else there is none.
   */
  lemma BaselineIsExact(inputs: Inputs)
    requires inputs.Valid()
    ensures Choice(inputs) == Some(Baseline(Ours, false)) <==> KeepsExactly(inputs, inputs.ours)
    ensures Choice(inputs) == Some(Baseline(Theirs, false)) <==>
            KeepsExactly(inputs, inputs.theirs) && !KeepsExactly(inputs, inputs.ours)
    ensures Choice(inputs) == Some(Baseline(Ours, true)) <==>
            && KeepsAll(inputs, inputs.ours)
            && !KeepsExactly(inputs, inputs.ours) && !KeepsExactly(inputs, inputs.theirs)
    ensures Choice(inputs) == None <==> !KeepsAll(inputs, inputs.ours) && !KeepsExactly(inputs, inputs.theirs)
  {
    hide Selected, Inputs.Valid, Kept, OwnerIds;
    var keys := Selected(inputs).Keys;
    forall id ensures Kept(inputs, id) <==> id in keys {
      KeptIsSelected(inputs, id);
    }
    assert keys == Ids(inputs.ours) <==> KeepsExactly(inputs, inputs.ours);
    assert keys == Ids(inputs.theirs) <==> KeepsExactly(inputs, inputs.theirs);
    assert Ids(inputs.ours) <= keys <==> KeepsAll(inputs, inputs.ours);
  }

  /** Appended are, in their order, theirs' owners that ours does not have and that are kept. */
  lemma AdditionsAreExact(inputs: Inputs, baseline: Baseline)
    requires inputs.Valid() && baseline.appendsTheirs
    ensures Additions(inputs, baseline) ==
            Filter(inputs.theirs.owners, (o: Owner) => o.id !in OwnerIds(inputs.ours) && Kept(inputs, o.id))
  {
    hide Selected, Inputs.Valid;
    var selected, ours, owners := Selected(inputs), Ids(inputs.ours), inputs.theirs.owners;
    forall k | 0 <= k < |owners|
      ensures (owners[k].id !in ours && owners[k].id in selected && selected[owners[k].id] == Theirs) <==>
              (owners[k].id !in OwnerIds(inputs.ours) && Kept(inputs, owners[k].id))
    {
      KeptIsSelected(inputs, owners[k].id);
      AbsentHasNone(inputs, owners[k].id);
    }
    FilterAgrees(owners, (o: Owner) => o.id !in ours && o.id in selected && selected[o.id] == Theirs,
                 (o: Owner) => o.id !in OwnerIds(inputs.ours) && Kept(inputs, o.id));
  }

  lemma AbsentHasNone(inputs: Inputs, id: string)
    requires inputs.Valid()
    ensures id !in OwnerIds(inputs.ours) ==> Fingerprint(inputs.ours, id) == None
  {
    IdIsOwned(inputs.ours, id);
  }

  /**
   * Whose bytes stand for an owner: theirs exactly when theirs changed or added it and ours left it as in
   * the base; ours otherwise.
   */
  lemma BytesAreExact(inputs: Inputs, id: string)
    requires inputs.Valid() && Kept(inputs, id)
    ensures id in Selected(inputs)
    ensures var doc := if Fingerprint(inputs.base, id) == Fingerprint(inputs.ours, id) != Fingerprint(inputs.theirs, id)
                       then inputs.theirs else inputs.ours;
            && Lookup(doc, id).Some?
            && SourceOf(inputs, Selected(inputs)[id]) == doc && SelectedOwner(inputs, id) == Lookup(doc, id).value
  {
    KeptIsSelected(inputs, id);
    SelectedIsThere(inputs, id);
  }

  // ----- refusals

  /** The common owners of all three documents, in the order of one of them. */
  function Common(inputs: Inputs, doc: Document): seq<string> {
    Filter(OwnerIds(doc), (id: string) =>
      id in OwnerIds(inputs.base) && id in OwnerIds(inputs.ours) && id in OwnerIds(inputs.theirs))
  }

  /** Two of the documents list different owners, or the same in different order. */
  predicate ListsDiffer(inputs: Inputs) {
    OwnerIds(inputs.base) != OwnerIds(inputs.ours) || OwnerIds(inputs.base) != OwnerIds(inputs.theirs)
  }

  ghost predicate MembershipRefused(inputs: Inputs)
    requires inputs.Valid()
  {
    !KeepsAll(inputs, inputs.ours) && !KeepsExactly(inputs, inputs.theirs)
  }

  predicate OrderRefused(inputs: Inputs) {
    Common(inputs, inputs.ours) != Common(inputs, inputs.theirs)
  }

  predicate LinesRefused(inputs: Inputs)
    requires inputs.Valid()
  {
    && ListsDiffer(inputs) && Common(inputs, inputs.base) != []
    && !(LinesSeparate(inputs.base) && LinesSeparate(inputs.ours) && LinesSeparate(inputs.theirs))
  }

  /** The layout between the common owners, by complete lines. */
  function CommonLayout(inputs: Inputs, doc: Document): seq<ByteString>
    requires ValidDocument(doc) && LinesSeparate(doc)
  {
    StableLayout(doc, set id | id in Common(inputs, inputs.base))
  }

  predicate LayoutRefused(inputs: Inputs)
    requires inputs.Valid() && !LinesRefused(inputs)
  {
    if !ListsDiffer(inputs) then
      !(Gaps(inputs.base) == Gaps(inputs.ours) == Gaps(inputs.theirs))
    else if Common(inputs, inputs.base) == [] then true
    else
      || CommonLayout(inputs, inputs.ours) != CommonLayout(inputs, inputs.theirs)
      || (Common(inputs, inputs.base) == Common(inputs, inputs.ours)
          && CommonLayout(inputs, inputs.base) != CommonLayout(inputs, inputs.ours))
  }

  lemma CommonIsStable(inputs: Inputs)
    ensures (set id | id in Common(inputs, inputs.base)) == StableIds(inputs)
    ensures Common(inputs, inputs.base) == [] <==> StableIds(inputs) == {}
    ensures forall doc :: Common(inputs, doc) == OrderOf(doc, StableIds(inputs))
  {
    var inAll := (id: string) =>
      id in OwnerIds(inputs.base) && id in OwnerIds(inputs.ours) && id in OwnerIds(inputs.theirs);
    FilterMembers(OwnerIds(inputs.base), inAll);
    forall id ensures id in StableIds(inputs) <==> inAll(id) {}
    forall doc ensures Common(inputs, doc) == OrderOf(doc, StableIds(inputs)) {
      var stable := StableIds(inputs);
      FilterAgrees(OwnerIds(doc), inAll, id => id in stable);
    }
    if Common(inputs, inputs.base) != [] {
      assert Common(inputs, inputs.base)[0] in StableIds(inputs);
    }
    if id :| id in StableIds(inputs) {
      assert id in Common(inputs, inputs.base);
    }
  }

  /** The merge looks at owners: the sources differ, and no owner clashes. */
  predicate ReachesOwners(inputs: Inputs) {
    && inputs.Valid()
    && inputs.base.source != inputs.ours.source
    && inputs.base.source != inputs.theirs.source
    && inputs.ours.source != inputs.theirs.source
    && forall id :: id in OwnerIds(inputs.base) + OwnerIds(inputs.ours) + OwnerIds(inputs.theirs) ==>
         Diff3(Fingerprint(inputs.base, id), Fingerprint(inputs.ours, id), Fingerprint(inputs.theirs, id)) != Clash
  }

  lemma ReachingCombines(inputs: Inputs, reparse: Reparse)
    requires ReachesOwners(inputs)
    ensures Merge(inputs, reparse) == Combine(inputs, reparse) && Conflicts(inputs) == []
  {
    hide Combine, Conflicts;
    NoClashIsNoConflict(inputs);
    forall id ensures inputs.Reference(id) != Clash {
      IdIsOwned(inputs.base, id);
      IdIsOwned(inputs.ours, id);
      IdIsOwned(inputs.theirs, id);
    }
  }

  lemma OrderIsRefused(inputs: Inputs)
    ensures OrderRefused(inputs) <==> !OrderAgreed(inputs)
  {
    hide Common, OrderOf, StableIds;
    CommonIsStable(inputs);
    if StableIds(inputs) == {} {
      NoCommonOrder(inputs, inputs.ours);
      NoCommonOrder(inputs, inputs.theirs);
    }
  }

  lemma NoCommonOrder(inputs: Inputs, doc: Document)
    requires StableIds(inputs) == {}
    ensures Common(inputs, doc) == []
  {
    CommonIsStable(inputs);
    var stable := StableIds(inputs);
    FilterKeepsNone(OwnerIds(doc), id => id in stable);
  }

  lemma LayoutIsRefused(inputs: Inputs)
    requires inputs.Valid() && !OrderRefused(inputs)
    ensures LinesRefused(inputs) <==> LayoutAgreed(inputs) == Err(UnreadableLines)
    ensures !LinesRefused(inputs) ==> LayoutAgreed(inputs) == Ok(!LayoutRefused(inputs))
  {
    hide Common, OrderOf, StableIds, StableLayout, Gaps, LinesSeparate, Inputs.Valid;
    CommonIsStable(inputs);
    OrderIsRefused(inputs);
    if !ListsDiffer(inputs) && OrderChanged(inputs) {
      OrderChangeIsMembershipChange(inputs);
    }
  }

  /**
   * The refusals of a merge that looks at owners. It cannot combine the memberships exactly when some
   * owner of ours is not kept and theirs is not exactly what is kept; otherwise it finds no agreed order
   * exactly when the tips order the common owners differently; and otherwise, with readable lines, it
   * finds the layout changed exactly when the layouts it has to compare differ.
   */
  lemma RefusalsAreExact(inputs: Inputs, reparse: Reparse)
    requires ReachesOwners(inputs)
    ensures Merge(inputs, reparse) == Error(UnsupportedFeature, NoCombinedMembership) <==> MembershipRefused(inputs)
    ensures Merge(inputs, reparse) == Error(UnsupportedFeature, NoAgreedOrder) <==>
            !MembershipRefused(inputs) && OrderRefused(inputs)
    ensures Merge(inputs, reparse) == Error(UnsupportedFeature, LayoutChanged) <==>
            && !MembershipRefused(inputs) && !OrderRefused(inputs)
            && !LinesRefused(inputs) && LayoutRefused(inputs)
    ensures !MembershipRefused(inputs) && !OrderRefused(inputs) && LinesRefused(inputs) ==>
              Merge(inputs, reparse) == Error(ConfigurationError, UnreadableLines)
  {
    hide Merge, Choice, OrderAgreed, LayoutAgreed, AdditionsHaveLines, PlannedText, Plannable, OrderRefused,
      LinesRefused, LayoutRefused, Inputs.Valid, Judge;
    ReachingCombines(inputs, reparse);
    BaselineIsExact(inputs);
    OrderIsRefused(inputs);
    if !OrderRefused(inputs) {
      LayoutIsRefused(inputs);
    }
    if Obstacle(inputs).None? {
      ChosenBaselineIsPlannable(inputs);
      JudgementIsConfiguration(inputs, PlannedText(inputs, Choice(inputs).value), reparse);
    }
  }

  lemma JudgementIsConfiguration(inputs: Inputs, output: ByteString, reparse: Reparse)
    requires inputs.Valid() && Choice(inputs).Some? && Plannable(inputs, Choice(inputs).value)
    ensures var outcome := Judge(inputs, Choice(inputs).value, output, reparse(output));
            outcome == Clean(output) || (outcome.Error? && outcome.category == ConfigurationError)
  {
    hide Choice, Plannable, ShowsOwners, ExpectedOwners, StableLayout, Gaps, LinesSeparate, ValidDocument;
  }

  // ----- the verdict on the reparse

  /** The reparsed owners: the baseline's with their kept fingerprints, then the appended ones. */
  ghost predicate ConfirmsOwners(inputs: Inputs, baseline: Document, added: seq<Owner>, answer: Document)
    requires inputs.Valid()
  {
    var n := |baseline.owners|;
    && |answer.owners| == n + |added|
    && (forall k :: 0 <= k < n ==>
          var id := baseline.owners[k].id;
          answer.owners[k].id == id && inputs.Reference(id) == Keep(Some(answer.owners[k].fingerprint)))
    && (forall k :: 0 <= k < |added| ==>
          answer.owners[n + k].id == added[k].id && answer.owners[n + k].fingerprint == added[k].fingerprint)
  }

  ghost predicate ExpectationFits(inputs: Inputs, doc: Document, added: seq<Owner>, expected: seq<(string, string)>,
                                  k: nat)
    requires inputs.Valid() && k < |expected| == |doc.owners| + |added|
  {
    if k < |doc.owners| then
      expected[k].0 == doc.owners[k].id && inputs.Reference(expected[k].0) == Keep(Some(expected[k].1))
    else
      expected[k] == (added[k - |doc.owners|].id, added[k - |doc.owners|].fingerprint)
  }

  lemma ExpectedAt(inputs: Inputs, k: nat)
    requires inputs.Valid() && Conflicts(inputs) == [] && Choice(inputs).Some?
    requires Plannable(inputs, Choice(inputs).value)
    requires k < |ExpectedOwners(inputs, Choice(inputs).value)|
    ensures var baseline := Choice(inputs).value;
            var doc, added := SourceOf(inputs, baseline.revision), Additions(inputs, baseline);
            var expected := ExpectedOwners(inputs, baseline);
            |expected| == |doc.owners| + |added| && ExpectationFits(inputs, doc, added, expected, k)
  {
    hide Selected, Choice, Additions, Conflicts, SelectedOwner, Inputs.Valid, Inputs.Reference;
    var baseline := Choice(inputs).value;
    if k < |SourceOf(inputs, baseline.revision).owners| {
      SelectedIsKept(inputs, BaselineId(inputs, baseline, k));
    }
  }

  lemma OwnersAreConfirmed(inputs: Inputs, answer: Document)
    requires inputs.Valid() && Conflicts(inputs) == [] && Choice(inputs).Some?
    requires Plannable(inputs, Choice(inputs).value)
    ensures var baseline := Choice(inputs).value;
            ShowsOwners(answer, ExpectedOwners(inputs, baseline)) <==>
            ConfirmsOwners(inputs, SourceOf(inputs, baseline.revision), Additions(inputs, baseline), answer)
  {
    var baseline := Choice(inputs).value;
    var doc, added := SourceOf(inputs, baseline.revision), Additions(inputs, baseline);
    var expected := ExpectedOwners(inputs, baseline);
    ExpectationSplits(inputs, baseline);
    assert |expected| == |doc.owners| + |added|;
    hide Selected, Choice, Plannable, Additions, Conflicts, SelectedOwner, Inputs.Valid, ExpectedOwners,
      Inputs.Reference, ConfirmsOwners, ShowsOwners;
    forall k | 0 <= k < |expected| ensures ExpectationFits(inputs, doc, added, expected, k) {
      ExpectedAt(inputs, k);
    }
    FittingConfirms(inputs, doc, added, expected, answer);
  }

  lemma FittingConfirms(inputs: Inputs, doc: Document, added: seq<Owner>, expected: seq<(string, string)>,
                        answer: Document)
    requires inputs.Valid() && |expected| == |doc.owners| + |added|
    requires forall k :: 0 <= k < |expected| ==> ExpectationFits(inputs, doc, added, expected, k)
    ensures ShowsOwners(answer, expected) <==> ConfirmsOwners(inputs, doc, added, answer)
  {
    hide Inputs.Reference, Inputs.Valid;
    var n := |doc.owners|;
    if ShowsOwners(answer, expected) {
      forall k | 0 <= k < |added|
        ensures answer.owners[n + k].id == added[k].id && answer.owners[n + k].fingerprint == added[k].fingerprint
      {
        assert ExpectationFits(inputs, doc, added, expected, n + k);
      }
      forall k | 0 <= k < n
        ensures answer.owners[k].id == doc.owners[k].id
        ensures inputs.Reference(doc.owners[k].id) == Keep(Some(answer.owners[k].fingerprint))
      {
        assert ExpectationFits(inputs, doc, added, expected, k);
      }
    }
    if ConfirmsOwners(inputs, doc, added, answer) {
      forall k | 0 <= k < |expected|
        ensures answer.owners[k].id == expected[k].0 && answer.owners[k].fingerprint == expected[k].1
      {
        assert ExpectationFits(inputs, doc, added, expected, k);
        if k >= n {
          assert answer.owners[n + (k - n)].id == added[k - n].id;
        }
      }
    }
  }

  /** The reparsed layout is the one that was planned. */
  predicate ConfirmsLayout(inputs: Inputs, baseline: Document, answer: Document)
    requires inputs.Valid() && ValidDocument(baseline) && ValidDocument(answer)
  {
    if ListsDiffer(inputs) then
      && LinesSeparate(answer) && LinesSeparate(baseline)
      && CommonLayout(inputs, answer) == CommonLayout(inputs, baseline)
    else Gaps(answer) == Gaps(baseline)
  }

  /**
   * A merge that is not refused is clean exactly when the reparse of the planned text confirms its owners
   * and its layout; only owners to append without readable lines stop it before.
   */
  lemma CleanIsExact(inputs: Inputs, reparse: Reparse)
    requires ReachesOwners(inputs) && !MembershipRefused(inputs) && !OrderRefused(inputs)
    requires !LinesRefused(inputs) && !LayoutRefused(inputs)
    ensures Choice(inputs).Some? && Plannable(inputs, Choice(inputs).value)
    ensures !AdditionsHaveLines(inputs, Choice(inputs).value) ==>
              Merge(inputs, reparse) == Error(ConfigurationError, UnreadableLines)
    ensures AdditionsHaveLines(inputs, Choice(inputs).value) ==>
              var baseline, output := Choice(inputs).value, PlannedText(inputs, Choice(inputs).value);
              var doc, answer := SourceOf(inputs, baseline.revision), reparse(output);
              Merge(inputs, reparse) == Clean(output) <==>
              && answer.Ok? && ValidDocument(answer.value) && ValidDocument(doc)
              && ConfirmsOwners(inputs, doc, Additions(inputs, baseline), answer.value)
              && ConfirmsLayout(inputs, doc, answer.value)
  {
    hide Merge, Choice, OrderAgreed, LayoutAgreed, AdditionsHaveLines, PlannedText, Plannable, Inputs.Valid, Judge,
      OrderRefused, LinesRefused, LayoutRefused, ConfirmsOwners, ConfirmsLayout, Additions;
    ReachingCombines(inputs, reparse);
    BaselineIsExact(inputs);
    OrderIsRefused(inputs);
    LayoutIsRefused(inputs);
    ChosenBaselineIsPlannable(inputs);
    if AdditionsHaveLines(inputs, Choice(inputs).value) {
      var output := PlannedText(inputs, Choice(inputs).value);
      JudgementIsExact(inputs, output, reparse(output));
    }
  }

  lemma JudgementIsExact(inputs: Inputs, output: ByteString, answer: Result<Document, string>)
    requires inputs.Valid() && Conflicts(inputs) == [] && Choice(inputs).Some?
    requires Plannable(inputs, Choice(inputs).value)
    ensures var baseline := Choice(inputs).value;
            var doc := SourceOf(inputs, baseline.revision);
            Judge(inputs, baseline, output, answer) == Clean(output) <==>
            && answer.Ok? && ValidDocument(answer.value) && ValidDocument(doc)
            && ConfirmsOwners(inputs, doc, Additions(inputs, baseline), answer.value)
            && ConfirmsLayout(inputs, doc, answer.value)
  {
    hide Choice, Plannable, ValidDocument, ShowsOwners, ExpectedOwners, Gaps, StableLayout, LinesSeparate, StableIds,
      Common, ConfirmsOwners, Additions, Conflicts;
    CommonIsStable(inputs);
    if answer.Ok? {
      OwnersAreConfirmed(inputs, answer.value);
    }
  }
}
