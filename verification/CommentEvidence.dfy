/** Which native comment nodes a comment augmentation reports, and which it leaves out. */
module CommentEvidence {
  import opened Wrappers
  import opened Sequences
  import opened Sorting
  import L = LayoutGaps
  import opened Comments
  import opened CommentProperties

  /** A tracked comment and the node it was read from; a node may have several comments. */
  datatype TrackedNode = TrackedNode(comment: TrackedComment, nodeId: string)

  datatype Evidence = Evidence(
    augmentation: Augmentation, regionNodeIds: map<string, seq<string>>, unclaimedNodeIds: seq<string>)

  function CommentOf(t: TrackedNode): TrackedComment { t.comment }

  function NodeByLine(): (TrackedNode, TrackedNode) -> bool {
    (a: TrackedNode, b: TrackedNode) => a.comment.line <= b.comment.line
  }

  /** The indices reported for some region. */
  function Seen(observed: seq<Observation>): (seen: set<nat>)
    ensures forall k :: k in seen <==> exists i :: 0 <= i < |observed| && k in observed[i].indices
  {
    Covered(Map((o: Observation) => o.indices, observed))
  }

  /** Some comment among the indices was read from the node. */
  predicate HasNode(tracked: seq<TrackedNode>, indices: seq<nat>, id: string) {
    exists j :: 0 <= j < |indices| && indices[j] < |tracked| && tracked[indices[j]].nodeId == id
  }

  /** The node is in the list of a region just when one of its comments was reported for that region. */
  ghost predicate Listed(tracked: seq<TrackedNode>, observed: seq<Observation>, lists: map<string, seq<string>>) {
    && (forall region :: region in lists <==> exists i :: 0 <= i < |observed| && observed[i].regionId == region)
    && (forall region :: region in lists ==> Distinct(lists[region]))
    && (forall region, id :: region in lists ==>
          (id in lists[region] <==>
             exists i :: 0 <= i < |observed| && observed[i].regionId == region
               && HasNode(tracked, observed[i].indices, id)))
  }

  /** Every unseen comment's node, once. */
  ghost predicate Unclaimed(tracked: seq<TrackedNode>, seen: set<nat>, ids: seq<string>) {
    Distinct(ids) && forall id :: id in ids <==> exists k :: 0 <= k < |tracked| && k !in seen && tracked[k].nodeId == id
  }

  predicate InTracked(tracked: seq<TrackedNode>, indices: seq<nat>) {
    forall j :: 0 <= j < |indices| ==> indices[j] < |tracked|
  }

  lemma HasNodeGrows(tracked: seq<TrackedNode>, indices: seq<nat>, n: nat, id: string)
    requires InTracked(tracked, indices) && n < |indices|
    ensures HasNode(tracked, indices[..n + 1], id) <==>
            HasNode(tracked, indices[..n], id) || tracked[indices[n]].nodeId == id
  {
    var prefix, next := indices[..n], indices[..n + 1];
    assert next[n] == indices[n];
    assert forall j :: 0 <= j < n ==> prefix[j] == next[j];
  }

  /** One report: note the nodes of its comments under the region. */
  method NoteReport(tracked: seq<TrackedNode>, report: Observation, before: seq<string>, claimed: set<nat>)
    returns (ids: seq<string>, nowClaimed: set<nat>)
    requires InTracked(tracked, report.indices) && Distinct(before)
    ensures nowClaimed == claimed + Members(report.indices)
    ensures Distinct(ids)
    ensures forall id :: id in ids <==> id in before || HasNode(tracked, report.indices, id)
  {
    ids, nowClaimed := before, claimed;
    ghost var indices := report.indices;
    for n := 0 to |report.indices|
      invariant nowClaimed == claimed + Members(indices[..n])
      invariant Distinct(ids)
      invariant forall id :: id in ids <==> id in before || HasNode(tracked, indices[..n], id)
    {
      hide HasNode;
      var index := report.indices[n];
      assert indices[..n + 1] == indices[..n] + [index];
      nowClaimed := nowClaimed + {index};
      forall id {
        HasNodeGrows(tracked, indices, n, id);
      }
      if tracked[index].nodeId !in ids {
        ids := ids + [tracked[index].nodeId];
      }
    }
    assert indices[..|indices|] == indices;
  }

  lemma ListOneMore(tracked: seq<TrackedNode>, observed: seq<Observation>, report: Observation,
                    lists: map<string, seq<string>>, ids: seq<string>)
    requires Listed(tracked, observed, lists) && Distinct(ids)
    requires forall id :: id in ids <==>
               || (report.regionId in lists && id in lists[report.regionId])
               || HasNode(tracked, report.indices, id)
    ensures Listed(tracked, observed + [report], lists[report.regionId := ids])
  {
    hide HasNode, Distinct;
    var more, now := observed + [report], lists[report.regionId := ids];
    assert forall i :: 0 <= i < |observed| ==> more[i] == observed[i];
    assert more[|observed|] == report;
    forall region ensures region in now <==> exists i :: 0 <= i < |more| && more[i].regionId == region {
      if region in lists {
        var i :| 0 <= i < |observed| && observed[i].regionId == region;
        assert more[i].regionId == region;
      }
    }
    forall region, id | region in now
      ensures id in now[region] <==>
              exists i :: 0 <= i < |more| && more[i].regionId == region && HasNode(tracked, more[i].indices, id)
    {
      if region in lists && id in lists[region] {
        var i :| 0 <= i < |observed| && observed[i].regionId == region && HasNode(tracked, observed[i].indices, id);
        assert more[i].regionId == region && HasNode(tracked, more[i].indices, id);
      }
      if i :| 0 <= i < |more| && more[i].regionId == region && HasNode(tracked, more[i].indices, id) {
        if i < |observed| {
          assert observed[i].regionId == region && HasNode(tracked, observed[i].indices, id);
        }
      }
    }
  }

  lemma SeenGrows(observed: seq<Observation>, report: Observation)
    ensures Seen(observed + [report]) == Seen(observed) + Members(report.indices)
  {
    var more := observed + [report];
    forall k ensures k in Seen(more) <==> k in Seen(observed) || k in report.indices {
      if k in Seen(observed) {
        var i :| 0 <= i < |observed| && k in observed[i].indices;
        assert k in more[i].indices;
      }
      if k in report.indices {
        assert k in more[|observed|].indices;
      }
    }
  }

  /** The callback over all reports. */
  method NoteReports(tracked: seq<TrackedNode>, observed: seq<Observation>)
    returns (lists: map<string, seq<string>>, claimed: set<nat>)
    requires forall i :: 0 <= i < |observed| ==> InTracked(tracked, observed[i].indices)
    ensures Listed(tracked, observed, lists) && claimed == Seen(observed)
  {
    lists, claimed := map[], {};
    assert observed[..|observed|] == observed;
    hide Seen;
    assert Seen([]) == {} by { NothingSeen(); }
    for i := 0 to |observed|
      invariant Listed(tracked, observed[..i], lists)
      invariant claimed == Seen(observed[..i])
    {
      hide Listed;
      assert observed[..i + 1] == observed[..i] + [observed[i]];
      SeenGrows(observed[..i], observed[i]);
      ListsAreDistinct(tracked, observed[..i], lists);
      var region := observed[i].regionId;
      var ids: seq<string> := [];
      ids, claimed := NoteReport(tracked, observed[i], if region in lists then lists[region] else [], claimed);
      ListOneMore(tracked, observed[..i], observed[i], lists, ids);
      lists := lists[region := ids];
    }
  }

  lemma NothingSeen()
    ensures Seen([]) == {}
  {}

  lemma ListsAreDistinct(tracked: seq<TrackedNode>, observed: seq<Observation>, lists: map<string, seq<string>>)
    requires Listed(tracked, observed, lists)
    ensures forall region :: region in lists ==> Distinct(lists[region])
  {}

  method CollectUnclaimed(tracked: seq<TrackedNode>, claimed: set<nat>) returns (ids: seq<string>)
    ensures Unclaimed(tracked, claimed, ids)
  {
    ids := [];
    for k := 0 to |tracked|
      invariant Distinct(ids)
      invariant forall id :: id in ids <==> exists j :: 0 <= j < k && j !in claimed && tracked[j].nodeId == id
    {
      if k !in claimed && tracked[k].nodeId !in ids {
        ids := ids + [tracked[k].nodeId];
      }
    }
  }

  /** Sorting the nodes first makes the augmenter's own sort a no-op, so its indices name these nodes. */
  lemma CommentsStaySorted(tracked: seq<TrackedNode>)
    ensures var comments := Map(CommentOf, Sort(NodeByLine(), tracked));
            SortedBy(ByLine(), comments) && Sort(ByLine(), comments) == comments
  {
    var sorted := Sort(NodeByLine(), tracked);
    SortSorts(NodeByLine(), tracked);
    var comments := Map(CommentOf, sorted);
    forall i, j | 0 <= i < j < |comments| ensures ByLine()(comments[i], comments[j]) {
      assert NodeByLine()(sorted[i], sorted[j]);
    }
    SortKeepsSorted(ByLine(), comments);
  }

  /** The page the augmenter works on. */
  function PageOf(lines: seq<string>, tracked: seq<TrackedNode>, indents: map<string, nat>, policy: Policy): Page {
    Page(lines, Map(CommentOf, Sort(NodeByLine(), tracked)), indents, policy)
  }

  /** The evidence wrapper: augment, and account for every node through the reports. */
  method AugmentWithEvidence(lines: seq<string>, owners: seq<LineOwner>, tracked: seq<TrackedNode>,
                             style: string, indents: map<string, nat>, policy: Policy)
    returns (r: Result<Evidence, Fault>)
    ensures var ordered := Sort(L.ByPosition(), owners);
            r.Ok? <==> AllInSource(|lines|, Map(CommentOf, tracked)) && L.Refusal(|lines|, ordered, []).None?
    ensures r.Ok? ==>
              var ordered, page := Sort(L.ByPosition(), owners), PageOf(lines, tracked, indents, policy);
              exists observed ::
                && Augmented(page, ordered, style, r.value.augmentation, observed)
                && Listed(Sort(NodeByLine(), tracked), observed, r.value.regionNodeIds)
                && Unclaimed(Sort(NodeByLine(), tracked), Seen(observed), r.value.unclaimedNodeIds)
  {
    hide Augmented, Listed, Unclaimed, L.Refusal, AllInSource, Sort, NodeByLine, Map, L.ByPosition, Seen;
    var sorted := Sort(NodeByLine(), tracked);
    var comments := Map(CommentOf, sorted);
    CommentsStaySorted(tracked);
    SourceCheckCarries(|lines|, tracked);
    var result, observed := AugmentCommentsObserved(lines, owners, comments, style, indents, policy);
    if result.Err? {
      return Err(result.error);
    }
    ghost var page := PageOf(lines, tracked, indents, policy);
    ReportsAreInPage(page, Sort(L.ByPosition(), owners), style, result.value, observed);
    var lists, claimed := NoteReports(sorted, observed);
    var unclaimed := CollectUnclaimed(sorted, claimed);
    r := Ok(Evidence(result.value, lists, unclaimed));
  }

  /** Sorting the nodes does not change which comments there are. */
  lemma SourceCheckCarries(lineCount: nat, tracked: seq<TrackedNode>)
    ensures AllInSource(lineCount, Map(CommentOf, Sort(NodeByLine(), tracked))) <==>
            AllInSource(lineCount, Map(CommentOf, tracked))
  {
    var sorted := Sort(NodeByLine(), tracked);
    SortKeepsMembers(NodeByLine(), tracked);
    hide Sort, NodeByLine, InSource, AllInSource;
    SourceCheckOfNodes(lineCount, tracked);
    SourceCheckOfNodes(lineCount, sorted);
  }

  lemma SourceCheckOfNodes(lineCount: nat, nodes: seq<TrackedNode>)
    ensures AllInSource(lineCount, Map(CommentOf, nodes)) <==> forall t :: t in nodes ==> InSource(lineCount, t.comment)
  {
    var comments := Map(CommentOf, nodes);
    forall k | 0 <= k < |nodes| ensures comments[k] == nodes[k].comment && nodes[k] in nodes {
    }
    if AllInSource(lineCount, comments) {
      forall t | t in nodes ensures InSource(lineCount, t.comment) {
        var k :| 0 <= k < |nodes| && nodes[k] == t;
        assert InSource(lineCount, comments[k]);
      }
    }
  }

  lemma ReportsAreInPage(page: Page, owners: seq<LineOwner>, style: string, a: Augmentation, observed: seq<Observation>)
    requires Augmented(page, owners, style, a, observed)
    ensures forall i :: 0 <= i < |observed| ==> InPage(page, observed[i].indices)
    ensures Seen(observed) == Claimed(AllClaims(page, owners))
  {
    hide AllClaims, RegionOf, L.GapsOf, RestClaims, IdsOfKind, AttachmentAt;
    var claims := AllClaims(page, owners);
    forall i | 0 <= i < |observed| ensures InPage(page, observed[i].indices) {
      assert ClaimFits(page, claims[i]);
    }
    forall k ensures k in Seen(observed) <==> k in Claimed(claims) {
      if k in Seen(observed) {
        var i :| 0 <= i < |observed| && k in observed[i].indices;
        assert k in claims[i].indices;
      }
      if k in Claimed(claims) {
        var i :| 0 <= i < |claims| && k in claims[i].indices;
        assert k in observed[i].indices;
      }
    }
  }

  /** The comments that no region takes: inline, and not scoped to an owner on whose lines they stand. */
  predicate IsLeftOut(owners: seq<LineOwner>, comment: TrackedComment) {
    !comment.fullLine && !(comment.scope == OwnerScope && OnOwner(owners, comment.line))
  }

  lemma OwnersSpanWhenAccepted(lineCount: nat, owners: seq<LineOwner>)
    requires L.Refusal(lineCount, owners, []).None?
    ensures OwnersSpan(owners)
  {}

  lemma OnOwnerPermutes(a: seq<LineOwner>, b: seq<LineOwner>, line: nat)
    requires forall owner :: owner in a <==> owner in b
    ensures OnOwner(a, line) ==> OnOwner(b, line)
  {
    if OnOwner(a, line) {
      var i :| 0 <= i < |a| && a[i].startLine <= line <= a[i].endLine;
      assert a[i] in b;
    }
  }

  /** The unclaimed nodes are exactly the nodes with a comment that no region takes. */
  lemma UnclaimedNodesAreExact(lines: seq<string>, owners: seq<LineOwner>, tracked: seq<TrackedNode>, style: string,
                               indents: map<string, nat>, policy: Policy, evidence: Evidence,
                               observed: seq<Observation>, id: string)
    requires L.Refusal(|lines|, Sort(L.ByPosition(), owners), []).None?
    requires Augmented(PageOf(lines, tracked, indents, policy), Sort(L.ByPosition(), owners), style,
                       evidence.augmentation, observed)
    requires Unclaimed(Sort(NodeByLine(), tracked), Seen(observed), evidence.unclaimedNodeIds)
    ensures id in evidence.unclaimedNodeIds <==>
            exists t :: t in tracked && t.nodeId == id && IsLeftOut(owners, t.comment)
  {
    hide L.Refusal, Augmented, Unclaimed, Sort, Seen, IsLeftOut, NodeByLine, L.ByPosition, AllClaims, OneRegionEach,
      AllOnTheirSide, OwnersSpan, SortedBy, HasRegion, Map, Claimed;
    var ordered, sorted := Sort(L.ByPosition(), owners), Sort(NodeByLine(), tracked);
    var page := PageOf(lines, tracked, indents, policy);
    OwnersSpanWhenAccepted(|lines|, ordered);
    CommentsStaySorted(tracked);
    CommentsAreAccountedFor(page, ordered);
    ReportsAreInPage(page, ordered, style, evidence.augmentation, observed);
    SortKeepsMembers(NodeByLine(), tracked);
    SortKeepsMembers(L.ByPosition(), owners);
    forall k | 0 <= k < |sorted| ensures k !in Seen(observed) <==> IsLeftOut(owners, sorted[k].comment) {
      LeftOutIsWithoutRegion(page, owners, ordered, sorted, k);
    }
    LeftOutNodes(tracked, sorted, Seen(observed), owners, evidence.unclaimedNodeIds, id);
  }

  lemma LeftOutIsWithoutRegion(page: Page, owners: seq<LineOwner>, ordered: seq<LineOwner>, sorted: seq<TrackedNode>,
                               k: nat)
    requires page.comments == Map(CommentOf, sorted) && k < |sorted|
    requires forall owner :: owner in ordered <==> owner in owners
    ensures !HasRegion(page, ordered, k) <==> IsLeftOut(owners, sorted[k].comment)
  {
    hide OnOwner;
    OnOwnerPermutes(owners, ordered, sorted[k].comment.line);
    OnOwnerPermutes(ordered, owners, sorted[k].comment.line);
  }

  lemma LeftOutNodes(tracked: seq<TrackedNode>, sorted: seq<TrackedNode>, seen: set<nat>, owners: seq<LineOwner>,
                     ids: seq<string>, id: string)
    requires forall t :: t in sorted <==> t in tracked
    requires forall k :: 0 <= k < |sorted| ==> (k !in seen <==> IsLeftOut(owners, sorted[k].comment))
    requires Unclaimed(sorted, seen, ids)
    ensures id in ids <==> exists t :: t in tracked && t.nodeId == id && IsLeftOut(owners, t.comment)
  {
    hide IsLeftOut;
    if id in ids {
      var k :| 0 <= k < |sorted| && k !in seen && sorted[k].nodeId == id;
      assert sorted[k] in tracked;
    }
    if t :| t in tracked && t.nodeId == id && IsLeftOut(owners, t.comment) {
      assert t in sorted;
      var k :| 0 <= k < |sorted| && sorted[k] == t;
    }
  }
}
