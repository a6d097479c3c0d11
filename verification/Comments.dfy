/** Attaching tracked comments to owners, to the document's edges, or to nothing. */
module Comments {
  import opened Wrappers
  import opened Sequences
  import opened Sorting
  import opened Text
  import D = LineDispositions
  import L = LayoutGaps

  type LineOwner = D.LineOwner

  datatype Policy = PrecedingOwner | FollowingOwner

  datatype Scope = OwnerScope | RootScope

  datatype TrackedComment = TrackedComment(
    line: nat, text: string, normalizedContent: string, fullLine: bool,
    indent: Option<nat>, structuralPrefix: bool, scope: Scope)

  datatype RegionKind = Leading | Inline | Trailing | Preamble | Postlude | Orphan {
    function Name(): string {
      match this
      case Leading => "leading"
      case Inline => "inline"
      case Trailing => "trailing"
      case Preamble => "preamble"
      case Postlude => "postlude"
      case Orphan => "orphan"
    }
  }

  datatype CommentLine = CommentLine(text: string, lineNumber: nat, normalizedContent: string)

  datatype Region = Region(
    id: string, kind: RegionKind, style: string, ownerId: string, floating: bool, nodes: seq<CommentLine>)

  function ByLine(): (TrackedComment, TrackedComment) -> bool {
    (a: TrackedComment, b: TrackedComment) => a.line <= b.line
  }

  function FirstOf(s: seq<nat>): Option<nat> {
    if s == [] then None else Some(s[0])
  }

  function AsList(x: Option<nat>): seq<nat> {
    if x.Some? then [x.value] else []
  }

  /** What every step of the augmenter reads: the lines, the comments in line order, and the policy. */
  datatype Page = Page(lines: seq<string>, comments: seq<TrackedComment>, indents: map<string, nat>, policy: Policy) {

    predicate Blank(line: nat) {
      0 < line <= |lines| && IsBlank(lines[line - 1])
    }

    predicate AllBlank(from: nat, end: nat) {
      forall line :: from <= line < end ==> Blank(line)
    }

    // ----- the comment on a line

    predicate Available(claimed: set<nat>, line: nat, k: nat) {
      k < |comments| && comments[k].scope == OwnerScope && comments[k].fullLine && comments[k].line == line
      && k !in claimed
    }

    /** The first comment from `k` on that an owner may take from the line. */
    function CommentOn(claimed: set<nat>, line: nat, k: nat): (r: Option<nat>)
      requires k <= |comments|
      ensures r.Some? ==> k <= r.value < |comments| && Available(claimed, line, r.value)
      ensures r.Some? ==> forall j :: k <= j < r.value ==> !Available(claimed, line, j)
      ensures r.None? ==> forall j :: k <= j < |comments| ==> !Available(claimed, line, j)
      decreases |comments| - k
    {
      if k == |comments| then None
      else if Available(claimed, line, k) then Some(k)
      else CommentOn(claimed, line, k + 1)
    }

    // ----- leading comments

    /** The comments taken from the lines `[from, end)`, one for each line that has any. */
    function Taken(claimed: set<nat>, from: nat, end: nat): (r: seq<nat>)
      ensures forall i :: 0 <= i < |r| ==> r[i] < |comments|
      decreases if from < end then end - from else 0
    {
      if from >= end then []
      else AsList(CommentOn(claimed, from, 0)) + Taken(claimed, from + 1, end)
    }

    /** Of the full-line comments above `line` that are not claimed, the last one on the lowest line. */
    function NearestAbove(claimed: set<nat>, line: nat, n: nat): (r: Option<nat>)
      requires n <= |comments|
      ensures r.Some? ==>
                r.value < n && comments[r.value].fullLine && comments[r.value].line < line && r.value !in claimed
      ensures forall k :: 0 <= k < n && comments[k].fullLine && comments[k].line < line && k !in claimed ==>
                r.Some? && (comments[k].line < comments[r.value].line
                            || (comments[k].line == comments[r.value].line && k <= r.value))
    {
      if n == 0 then None
      else
        var before, k := NearestAbove(claimed, line, n - 1), n - 1;
        if comments[k].fullLine && comments[k].line < line && k !in claimed
           && (before.None? || comments[before.value].line <= comments[k].line)
        then Some(k) else before
    }

    predicate PrefixAbove(claimed: set<nat>, line: nat) {
      var nearest := NearestAbove(claimed, line, |comments|);
      nearest.Some? && comments[nearest.value].structuralPrefix && AllBlank(comments[nearest.value].line + 1, line)
    }

    /** A blank line between an owner and the comments above it that does not end the search. */
    predicate Passable(claimed: set<nat>, start: nat, line: nat) {
      && Blank(line)
      && (|| policy == PrecedingOwner
          || (var below := FirstOf(Taken(claimed, line + 1, start));
              below.Some? && comments[below.value].structuralPrefix)
          || PrefixAbove(claimed, line))
    }

    /** The line at which the upward search from `line` stops, or zero. */
    function Stop(claimed: set<nat>, start: nat, line: nat): (stop: nat)
      ensures stop <= line
    {
      if line == 0 then 0
      else if CommentOn(claimed, line, 0).Some? || Passable(claimed, start, line) then Stop(claimed, start, line - 1)
      else line
    }

    /** The first blank line in `[from, end)`. */
    function FirstBlank(from: nat, end: nat): (r: Option<nat>)
      ensures r.Some? ==>
                from <= r.value < end && Blank(r.value) && forall line :: from <= line < r.value ==> !Blank(line)
      ensures r.None? ==> forall line :: from <= line < end ==> !Blank(line)
      decreases if from < end then end - from else 0
    {
      if from >= end then None
      else if Blank(from) then Some(from)
      else FirstBlank(from + 1, end)
    }

    function LineOf(k: nat): nat {
      if k < |comments| then comments[k].line else 0
    }

    function IsBelow(line: nat): nat -> bool {
      (k: nat) => LineOf(k) > line
    }

    /** What a file header keeps for itself is not taken by the owner below it. */
    function WithoutHeader(selected: seq<nat>, start: nat): seq<nat> {
      if selected != [] && LineOf(selected[0]) == 1 && FirstBlank(1, start).Some?
      then Filter(selected, IsBelow(FirstBlank(1, start).value))
      else selected
    }

    function Leading(claimed: set<nat>, owner: LineOwner): seq<nat> {
      var start := owner.startLine;
      var above := if start == 0 then 0 else start - 1;
      WithoutHeader(Taken(claimed, Stop(claimed, start, above) + 1, start), start)
    }

    // ----- trailing comments

    function SkipBlank(line: nat, maxLine: nat): (r: nat)
      requires line <= maxLine + 1
      ensures line <= r <= maxLine + 1
      ensures AllBlank(line, r) && (r <= maxLine ==> !Blank(r))
      decreases maxLine + 1 - line
    {
      if line <= maxLine && Blank(line) then SkipBlank(line + 1, maxLine) else line
    }

    predicate IndentFits(k: nat, ownerId: string)
      requires k < |comments|
    {
      comments[k].indent.Some? && ownerId in indents ==> comments[k].indent.value == indents[ownerId]
    }

    /** Comments from `line` on, separated by blank lines only, as long as the indentation fits. */
    function TrailingFrom(claimed: set<nat>, ownerId: string, line: nat, maxLine: nat): (r: seq<nat>)
      requires line <= maxLine + 1
      ensures forall i :: 0 <= i < |r| ==> r[i] < |comments|
      decreases maxLine + 1 - line
    {
      if line > maxLine then []
      else
        var found := CommentOn(claimed, line, 0);
        if found.None? || !IndentFits(found.value, ownerId) then []
        else [found.value] + TrailingFrom(claimed, ownerId, SkipBlank(line + 1, maxLine), maxLine)
    }

    function MaxLine(next: Option<LineOwner>): nat {
      if next.Some? then (if next.value.startLine == 0 then 0 else next.value.startLine - 1) else |lines|
    }

    function Trailing(claimed: set<nat>, owner: LineOwner, next: Option<LineOwner>): seq<nat> {
      if policy == FollowingOwner then []
      else if owner.endLine + 1 > MaxLine(next) || Blank(owner.endLine + 1) then []
      else TrailingFrom(claimed, owner.id, owner.endLine + 1, MaxLine(next))
    }

    // ----- inline comments, the postlude and the rest

    function IsInline(claimed: set<nat>, owner: LineOwner): nat -> bool {
      (k: nat) =>
        k < |comments| && comments[k].scope == OwnerScope && !comments[k].fullLine && k !in claimed
        && owner.startLine <= comments[k].line <= owner.endLine
    }

    function Inline(claimed: set<nat>, owner: LineOwner): seq<nat> {
      Select(|comments|, IsInline(claimed, owner))
    }

    function IsPostlude(claimed: set<nat>, owners: seq<LineOwner>): nat -> bool {
      (k: nat) =>
        k < |comments| && comments[k].scope == OwnerScope && comments[k].fullLine && k !in claimed
        && owners != [] && comments[k].line > owners[|owners| - 1].endLine
    }

    function IsRemaining(claimed: set<nat>): nat -> bool {
      (k: nat) => k < |comments| && comments[k].fullLine && k !in claimed
    }

    /** A comment joins the group of the previous one when only blank lines are between them. */
    predicate Joins(j: nat, k: nat) {
      AllBlank(LineOf(j) + 1, LineOf(k))
    }

    function Grouped(indices: seq<nat>): (groups: seq<seq<nat>>)
      ensures forall g :: 0 <= g < |groups| ==> groups[g] != []
    {
      if indices == [] then []
      else
        var n := |indices| - 1;
        var before, k := Grouped(indices[..n]), indices[n];
        var last := |before| - 1;
        if before != [] && Joins(before[last][|before[last]| - 1], k)
        then before[..last] + [before[last] + [k]]
        else before + [[k]]
    }
  }

  // ----- claims: which comments go to which region

  datatype Claim = Claim(kind: RegionKind, ownerId: string, indices: seq<nat>, floating: bool)

  datatype Observation = Observation(regionId: string, indices: seq<nat>)

  function Claimed(claims: seq<Claim>): (all: set<nat>)
    ensures forall k :: k in all <==> exists i :: 0 <= i < |claims| && k in claims[i].indices
  {
    Covered(Map((c: Claim) => c.indices, claims))
  }

  function LineOrder(page: Page): (nat, nat) -> bool {
    (j: nat, k: nat) => page.LineOf(j) <= page.LineOf(k)
  }

  function ClaimIf(page: Page, kind: RegionKind, ownerId: string, indices: seq<nat>, floating: bool): seq<Claim> {
    if indices == [] then [] else [Claim(kind, ownerId, Sort(LineOrder(page), indices), floating)]
  }

  /** A blank line stands between the last leading comment and its owner. */
  predicate Floats(page: Page, leading: seq<nat>, owner: LineOwner) {
    leading != [] && page.FirstBlank(page.LineOf(leading[|leading| - 1]) + 1, owner.startLine).Some?
  }

  function NextOwner(owners: seq<LineOwner>, i: nat): Option<LineOwner> {
    if i + 1 < |owners| then Some(owners[i + 1]) else None
  }

  /** What owner `i` takes, given what was claimed before it. */
  function OwnerRound(page: Page, owners: seq<LineOwner>, i: nat, claimed: set<nat>): seq<Claim>
    requires i < |owners|
  {
    var owner := owners[i];
    var leading := page.Leading(claimed, owner);
    ClaimIf(page, Leading, owner.id, leading, Floats(page, leading, owner))
    + ClaimIf(page, Inline, owner.id, page.Inline(claimed, owner), false)
    + ClaimIf(page, Trailing, owner.id, page.Trailing(claimed, owner, NextOwner(owners, i)), false)
  }

  function OwnerClaims(page: Page, owners: seq<LineOwner>, n: nat): seq<Claim>
    requires n <= |owners|
  {
    if n == 0 then []
    else
      var before := OwnerClaims(page, owners, n - 1);
      before + OwnerRound(page, owners, n - 1, Claimed(before))
  }

  function DocumentOwner(kind: RegionKind): string {
    "document:" + kind.Name()
  }

  function DocumentClaim(page: Page, kind: RegionKind, indices: seq<nat>): seq<Claim> {
    ClaimIf(page, kind, DocumentOwner(kind), indices, false)
  }

  function PostludeClaims(page: Page, owners: seq<LineOwner>): seq<Claim> {
    var claimed := Claimed(OwnerClaims(page, owners, |owners|));
    DocumentClaim(page, Postlude, Select(|page.comments|, page.IsPostlude(claimed, owners)))
  }

  function RemainingGroups(page: Page, owners: seq<LineOwner>): seq<seq<nat>> {
    var claimed := Claimed(OwnerClaims(page, owners, |owners|) + PostludeClaims(page, owners));
    page.Grouped(Select(|page.comments|, page.IsRemaining(claimed)))
  }

  lemma GroupsAreNotEmpty(page: Page, owners: seq<LineOwner>)
    ensures forall g :: 0 <= g < |RemainingGroups(page, owners)| ==> RemainingGroups(page, owners)[g] != []
  {
    hide Page.Grouped, OwnerClaims, PostludeClaims, Claimed;
  }

  function First(group: seq<nat>): nat
    requires group != []
  {
    group[0]
  }

  function Last(group: seq<nat>): nat
    requires group != []
  {
    group[|group| - 1]
  }

  function FirstStart(owners: seq<LineOwner>): Option<nat> {
    if owners == [] then None else Some(owners[0].startLine)
  }

  /** The last blank line in `[from, end)`. */
  function LastBlank(page: Page, from: nat, end: nat): (r: Option<nat>)
    ensures r.Some? ==> from <= r.value < end && page.Blank(r.value)
    ensures r.Some? ==> forall line :: r.value < line < end ==> !page.Blank(line)
    ensures r.None? ==> forall line :: from <= line < end ==> !page.Blank(line)
  {
    if from >= end then None
    else if page.Blank(end - 1) then Some(end - 1)
    else LastBlank(page, from, end - 1)
  }

  /** The blank line after which the first group of a document leaves its preamble, if it has to. */
  function SplitLine(page: Page, owners: seq<LineOwner>, group: seq<nat>): Option<nat>
    requires group != []
  {
    if page.LineOf(First(group)) == 1 && |group| > 1 then
      var blank := LastBlank(page, page.LineOf(First(group)), page.LineOf(Last(group)));
      if blank.Some? && FirstStart(owners).Some? && blank.value < FirstStart(owners).value then blank else None
    else None
  }

  function IsAbove(page: Page, line: nat): nat -> bool {
    (k: nat) => page.LineOf(k) < line
  }

  function NotAbove(page: Page, line: nat): nat -> bool {
    (k: nat) => page.LineOf(k) >= line
  }

  predicate BeforeOwners(page: Page, owners: seq<LineOwner>, group: seq<nat>)
    requires group != []
  {
    FirstStart(owners).Some? && page.LineOf(Last(group)) < FirstStart(owners).value
  }

  /** What one remaining group becomes; only one group, or its head, can be the preamble. */
  function GroupClaims(page: Page, owners: seq<LineOwner>, group: seq<nat>, hasPreamble: bool): seq<Claim>
    requires group != []
  {
    if hasPreamble || !BeforeOwners(page, owners, group) then DocumentClaim(page, Orphan, group)
    else
      var split := SplitLine(page, owners, group);
      if split.Some? && Filter(group, IsAbove(page, split.value)) != [] then
        DocumentClaim(page, Preamble, Filter(group, IsAbove(page, split.value)))
        + DocumentClaim(page, Orphan, Filter(group, NotAbove(page, split.value)))
      else DocumentClaim(page, Preamble, group)
  }

  predicate HasKind(claims: seq<Claim>, kind: RegionKind) {
    exists i :: 0 <= i < |claims| && claims[i].kind == kind
  }

  function RestClaims(page: Page, owners: seq<LineOwner>, groups: seq<seq<nat>>, n: nat): seq<Claim>
    requires n <= |groups| && forall g :: 0 <= g < |groups| ==> groups[g] != []
  {
    if n == 0 then []
    else
      var before := RestClaims(page, owners, groups, n - 1);
      before + GroupClaims(page, owners, groups[n - 1], HasKind(before, Preamble))
  }

  /** Every claim of a document, in the order in which they are reported. */
  function AllClaims(page: Page, owners: seq<LineOwner>): seq<Claim> {
    var groups := RemainingGroups(page, owners);
    OwnerClaims(page, owners, |owners|) + PostludeClaims(page, owners) + RestClaims(page, owners, groups, |groups|)
  }

  // ----- regions

  function RegionId(page: Page, kind: RegionKind, indices: seq<nat>): string
    requires indices != []
  {
    "comment-region:" + kind.Name() + ":" + Decimal(page.LineOf(First(indices))) + "-"
      + Decimal(page.LineOf(Last(indices)))
  }

  function BlankNodes(page: Page, from: nat, end: nat): seq<CommentLine> {
    if from >= end then []
    else
      BlankNodes(page, from, end - 1)
      + if page.Blank(end - 1) then [CommentLine(page.lines[end - 2], end - 1, "")] else []
  }

  function CommentNode(page: Page, k: nat): CommentLine
    requires k < |page.comments|
  {
    CommentLine(page.comments[k].text, page.comments[k].line, page.comments[k].normalizedContent)
  }

  predicate InPage(page: Page, indices: seq<nat>) {
    forall i :: 0 <= i < |indices| ==> indices[i] < |page.comments|
  }

  /** The comments, and between two of them the blank lines if they are kept. */
  function Nodes(page: Page, indices: seq<nat>, blanks: bool): seq<CommentLine>
    requires InPage(page, indices)
  {
    if indices == [] then []
    else
      var n := |indices| - 1;
      assert forall i :: 0 <= i < n ==> indices[..n][i] == indices[i];
      Nodes(page, indices[..n], blanks)
      + (if blanks && n > 0 then BlankNodes(page, page.LineOf(indices[n - 1]) + 1, page.LineOf(indices[n])) else [])
      + [CommentNode(page, indices[n])]
  }

  predicate ClaimFits(page: Page, claim: Claim) {
    claim.indices != [] && InPage(page, claim.indices)
  }

  function RegionOf(page: Page, style: string, claim: Claim): Region
    requires ClaimFits(page, claim)
  {
    Region(RegionId(page, claim.kind, claim.indices), claim.kind, style, claim.ownerId, claim.floating,
           Nodes(page, claim.indices, claim.kind != Inline))
  }

  ghost predicate Reported(page: Page, style: string, claims: seq<Claim>, regions: seq<Region>,
                           observed: seq<Observation>)
  {
    && |regions| == |observed| == |claims|
    && forall i :: 0 <= i < |claims| ==>
         && ClaimFits(page, claims[i])
         && regions[i] == RegionOf(page, style, claims[i])
         && observed[i] == Observation(regions[i].id, claims[i].indices)
  }

  /** The regions pushed so far, and what was reported to the observer. */
  class Regions {
    var regions: seq<Region>
    var observed: seq<Observation>

    constructor ()
      ensures regions == [] && observed == []
    {
      regions, observed := [], [];
    }

    /** `push_region_for_owner`: nothing for no comments, else one region and one report. */
    method Push(page: Page, kind: RegionKind, ownerId: string, indices: seq<nat>, style: string, blanks: bool,
                floating: bool, ghost claims: seq<Claim>)
      returns (id: Option<string>)
      requires InPage(page, indices) && Reported(page, style, claims, regions, observed)
      requires blanks == (kind != Inline)
      modifies this
      ensures Reported(page, style, claims + ClaimIf(page, kind, ownerId, indices, floating), regions, observed)
      ensures id == if indices == [] then None else Some(RegionId(page, kind, Sort(LineOrder(page), indices)))
    {
      if indices == [] {
        assert claims + [] == claims;
        return None;
      }
      var ordered := Sort(LineOrder(page), indices);
      SortedInPage(page, indices);
      var regionId := RegionId(page, kind, ordered);
      observed := observed + [Observation(regionId, ordered)];
      var nodes := RegionNodes(page, ordered, blanks);
      regions := regions + [Region(regionId, kind, style, ownerId, floating, nodes)];
      id := Some(regionId);
    }
  }

  /** The node loop of `push_region_for_owner`. */
  method RegionNodes(page: Page, ordered: seq<nat>, blanks: bool) returns (nodes: seq<CommentLine>)
    requires InPage(page, ordered)
    ensures nodes == Nodes(page, ordered, blanks)
  {
    nodes := [];
    var previousLine: Option<nat> := None;
    assert ordered[..0] == [] && ordered[..|ordered|] == ordered;
    for i := 0 to |ordered|
      invariant nodes == Nodes(page, ordered[..i], blanks)
      invariant previousLine == if i == 0 then None else Some(page.LineOf(ordered[i - 1]))
    {
      assert ordered[..i + 1][..i] == ordered[..i];
      var comment := page.comments[ordered[i]];
      if blanks && previousLine.Some? {
        var between := BlanksBetween(page, previousLine.value + 1, comment.line);
        nodes := nodes + between;
      }
      nodes := nodes + [CommentLine(comment.text, comment.line, comment.normalizedContent)];
      previousLine := Some(comment.line);
    }
  }

  method BlanksBetween(page: Page, from: nat, end: nat) returns (nodes: seq<CommentLine>)
    ensures nodes == BlankNodes(page, from, end)
  {
    nodes := [];
    var line := from;
    while line < end
      invariant if from <= end then from <= line <= end else line == from
      invariant nodes == BlankNodes(page, from, line)
    {
      if page.Blank(line) {
        nodes := nodes + [CommentLine(page.lines[line - 1], line, "")];
      }
      line := line + 1;
    }
    assert from > end ==> nodes == [] == BlankNodes(page, from, end);
  }

  lemma SortedInPage(page: Page, indices: seq<nat>)
    requires InPage(page, indices)
    ensures InPage(page, Sort(LineOrder(page), indices))
    ensures |Sort(LineOrder(page), indices)| == |indices|
  {
    SortKeepsMembers(LineOrder(page), indices);
    var ordered := Sort(LineOrder(page), indices);
    forall i | 0 <= i < |ordered| ensures ordered[i] < |page.comments| {
      assert ordered[i] in indices;
    }
  }

  // ----- the searches

  lemma ReverseGrows(s: seq<nat>, x: nat)
    ensures Reverse(s + [x]) == [x] + Reverse(s)
  {}

  /** `leading_comment_indices`: search upwards, turn around, leave the header out. */
  method LeadingCommentIndices(page: Page, owner: LineOwner, claimed: set<nat>) returns (selected: seq<nat>)
    ensures selected == page.Leading(claimed, owner)
  {
    hide Page.Blank, Page.Available, Page.PrefixAbove, Page.CommentOn, Page.FirstBlank, Reverse, Filter, Page.Taken,
      Page.Stop;
    ghost var start := owner.startLine;
    selected := [];
    var current: nat := if owner.startLine == 0 then 0 else owner.startLine - 1;
    ghost var above := current;
    NothingTaken(page, claimed, above + 1, start);
    while current > 0
      invariant current <= above
      invariant Reverse(selected) == page.Taken(claimed, current + 1, start)
      invariant page.Stop(claimed, start, above) == page.Stop(claimed, start, current)
    {
      var found := page.CommentOn(claimed, current, 0);
      TakenStep(page, claimed, current, start);
      StopStep(page, claimed, start, current);
      if found.Some? {
        ReverseGrows(selected, found.value);
        selected := selected + [found.value];
        current := current - 1;
      } else {
        LastIsFirst(selected);
        assert selected != [] ==> Reverse(selected)[0] in Reverse(selected);
        if page.Blank(current)
           && (page.policy == PrecedingOwner
               || (selected != [] && page.comments[selected[|selected| - 1]].structuralPrefix)
               || page.PrefixAbove(claimed, current)) {
          current := current - 1;
        } else {
          break;
        }
      }
    }
    StopAtTop(page, claimed, start);
    assert current == page.Stop(claimed, start, above);
    selected := Reverse(selected);
    var firstGap := page.FirstBlank(1, owner.startLine);
    if selected != [] && page.comments[selected[0]].line == 1 && firstGap.Some? {
      selected := Filter(selected, page.IsBelow(firstGap.value));
    }
  }

  lemma NothingTaken(page: Page, claimed: set<nat>, from: nat, end: nat)
    requires from >= end
    ensures Reverse([]) == page.Taken(claimed, from, end)
  {}

  lemma TakenStep(page: Page, claimed: set<nat>, line: nat, end: nat)
    requires line < end
    ensures page.Taken(claimed, line, end) ==
            AsList(page.CommentOn(claimed, line, 0)) + page.Taken(claimed, line + 1, end)
  {}

  lemma StopStep(page: Page, claimed: set<nat>, start: nat, line: nat)
    requires line > 0
    ensures page.Stop(claimed, start, line) ==
            if page.CommentOn(claimed, line, 0).Some? || page.Passable(claimed, start, line)
            then page.Stop(claimed, start, line - 1) else line
  {}

  lemma StopAtTop(page: Page, claimed: set<nat>, start: nat)
    ensures page.Stop(claimed, start, 0) == 0
  {}

  lemma LastIsFirst(s: seq<nat>)
    ensures s != [] ==> Reverse(s)[0] == s[|s| - 1]
  {}

  /** `trailing_comment_indices`: search downwards over comments and blank lines. */
  method TrailingCommentIndices(page: Page, owner: LineOwner, next: Option<LineOwner>, claimed: set<nat>)
    returns (selected: seq<nat>)
    ensures selected == page.Trailing(claimed, owner, next)
  {
    hide *;
    TrailingStart(page, owner, next, claimed);
    selected := [];
    if page.policy == FollowingOwner {
      return;
    }
    var maxLine := page.MaxLine(next);
    var current := owner.endLine + 1;
    if current > maxLine || page.Blank(current) {
      return;
    }
    while current <= maxLine
      invariant current <= maxLine + 1
      invariant TrailingSoFar(page, claimed, owner, next, selected, current)
    {
      var found := page.CommentOn(claimed, current, 0);
      if found.None? {
        break;
      }
      if !page.IndentFits(found.value, owner.id) {
        break;
      }
      TrailingGrows(page, claimed, owner, next, selected, current);
      selected := selected + [found.value];
      current := current + 1;
      ghost var below := current;
      while current <= maxLine && page.Blank(current)
        invariant below <= current <= maxLine + 1
        invariant page.SkipBlank(below, maxLine) == page.SkipBlank(current, maxLine)
      {
        SkipStep(page, current, maxLine);
        current := current + 1;
      }
      SkipStep(page, current, maxLine);
    }
    TrailingEnds(page, claimed, owner, next, selected, current);
  }

  /** The comments selected above `line`, and what the search finds from there. */
  predicate TrailingSoFar(page: Page, claimed: set<nat>, owner: LineOwner, next: Option<LineOwner>,
                          selected: seq<nat>, line: nat)
  {
    && line <= page.MaxLine(next) + 1
    && page.Trailing(claimed, owner, next) ==
       selected + page.TrailingFrom(claimed, owner.id, line, page.MaxLine(next))
  }

  lemma TrailingStart(page: Page, owner: LineOwner, next: Option<LineOwner>, claimed: set<nat>)
    ensures if page.policy == FollowingOwner || owner.endLine + 1 > page.MaxLine(next)
               || page.Blank(owner.endLine + 1)
            then page.Trailing(claimed, owner, next) == []
            else TrailingSoFar(page, claimed, owner, next, [], owner.endLine + 1)
  {
    hide Page.TrailingFrom, Page.MaxLine, Page.Blank;
  }

  lemma TrailingGrows(page: Page, claimed: set<nat>, owner: LineOwner, next: Option<LineOwner>, selected: seq<nat>,
                      line: nat)
    requires TrailingSoFar(page, claimed, owner, next, selected, line) && line <= page.MaxLine(next)
    requires var found := page.CommentOn(claimed, line, 0); found.Some? && page.IndentFits(found.value, owner.id)
    ensures TrailingSoFar(page, claimed, owner, next, selected + [page.CommentOn(claimed, line, 0).value],
                          page.SkipBlank(line + 1, page.MaxLine(next)))
  {
    hide Page.Trailing, Page.CommentOn, Page.IndentFits, Page.SkipBlank, Page.MaxLine, Page.TrailingFrom;
    var maxLine, found := page.MaxLine(next), page.CommentOn(claimed, line, 0);
    TrailingStep(page, claimed, owner.id, line, maxLine);
    Associative(selected, [found.value],
                page.TrailingFrom(claimed, owner.id, page.SkipBlank(line + 1, maxLine), maxLine));
  }

  lemma TrailingEnds(page: Page, claimed: set<nat>, owner: LineOwner, next: Option<LineOwner>, selected: seq<nat>,
                     line: nat)
    requires TrailingSoFar(page, claimed, owner, next, selected, line)
    requires line <= page.MaxLine(next) ==>
               var found := page.CommentOn(claimed, line, 0); found.None? || !page.IndentFits(found.value, owner.id)
    ensures selected == page.Trailing(claimed, owner, next)
  {
    hide Page.Trailing, Page.CommentOn, Page.IndentFits, Page.SkipBlank, Page.MaxLine, Page.TrailingFrom;
    TrailingStep(page, claimed, owner.id, line, page.MaxLine(next));
    assert selected + [] == selected;
  }

  lemma TrailingStep(page: Page, claimed: set<nat>, ownerId: string, line: nat, maxLine: nat)
    requires line <= maxLine + 1
    ensures page.TrailingFrom(claimed, ownerId, line, maxLine) ==
            var found := page.CommentOn(claimed, line, 0);
            if line > maxLine || found.None? || !page.IndentFits(found.value, ownerId) then []
            else [found.value] + page.TrailingFrom(claimed, ownerId, page.SkipBlank(line + 1, maxLine), maxLine)
  {}

  lemma SkipStep(page: Page, line: nat, maxLine: nat)
    requires line <= maxLine + 1
    ensures page.SkipBlank(line, maxLine) ==
            if line <= maxLine && page.Blank(line) then page.SkipBlank(line + 1, maxLine) else line
  {}

  /** Groups end exactly where something other than blank lines stands before the next comment. */
  predicate CutAtBreaks(page: Page, groups: seq<seq<nat>>) {
    && (forall g :: 0 <= g < |groups| ==> groups[g] != [] && Linked(page, groups[g]))
    && (forall g :: 0 < g < |groups| && groups[g - 1] != [] && groups[g] != [] ==>
          !page.Joins(Last(groups[g - 1]), First(groups[g])))
  }

  predicate Linked(page: Page, group: seq<nat>) {
    forall i :: 0 < i < |group| ==> page.Joins(group[i - 1], group[i])
  }

  lemma CutGrows(page: Page, groups: seq<seq<nat>>, k: nat)
    requires CutAtBreaks(page, groups) && (groups != [] ==> !page.Joins(Last(groups[|groups| - 1]), k))
    ensures CutAtBreaks(page, groups + [[k]])
  {
    hide Page.Joins;
  }

  lemma GroupGrows(page: Page, groups: seq<seq<nat>>, last: seq<nat>, k: nat)
    requires last != [] && CutAtBreaks(page, groups + [last]) && page.Joins(Last(last), k)
    ensures CutAtBreaks(page, groups + [last + [k]])
  {
    hide Page.Joins;
    var before, after := groups + [last], groups + [last + [k]];
    assert Linked(page, before[|groups|]) && before[|groups|] == last && after[|groups|] == last + [k];
    assert Linked(page, last + [k]);
    assert First(last + [k]) == First(last);
    forall g | 0 <= g < |groups| ensures after[g] == before[g] {}
  }

  lemma {:induction false} GroupedCuts(page: Page, indices: seq<nat>)
    ensures CutAtBreaks(page, page.Grouped(indices))
  {
    hide Page.Joins, CutAtBreaks;
    if indices == [] {
      NothingCut(page);
    } else {
      var before, k := page.Grouped(indices[..|indices| - 1]), indices[|indices| - 1];
      GroupedCuts(page, indices[..|indices| - 1]);
      var last := |before| - 1;
      if before != [] && page.Joins(Last(before[last]), k) {
        assert before == before[..last] + [before[last]];
        GroupGrows(page, before[..last], before[last], k);
      } else {
        CutGrows(page, before, k);
      }
    }
  }

  lemma NothingCut(page: Page)
    ensures CutAtBreaks(page, [])
  {}

  lemma {:induction false} GroupedFlattens(page: Page, indices: seq<nat>)
    ensures Flatten(page.Grouped(indices)) == indices
  {
    if indices != [] {
      var n := |indices| - 1;
      var before, k := page.Grouped(indices[..n]), indices[n];
      GroupedFlattens(page, indices[..n]);
      assert indices == indices[..n] + [k];
      var last := |before| - 1;
      hide Flatten, Page.Joins;
      if before != [] && page.Joins(before[last][|before[last]| - 1], k) {
        assert before == before[..last] + [before[last]];
        FlattenSnoc(before[..last], before[last]);
        FlattenSnoc(before[..last], before[last] + [k]);
        Associative(Flatten(before[..last]), before[last], [k]);
      } else {
        FlattenSnoc(before, [k]);
      }
    }
  }

  /** `group_comments_with_blank_lines`: the comments in order, cut where more than blank lines separates them. */
  method GroupComments(page: Page, indices: seq<nat>) returns (groups: seq<seq<nat>>)
    ensures groups == page.Grouped(indices)
    ensures Flatten(groups) == indices && CutAtBreaks(page, groups)
  {
    hide Page.Joins, Flatten, CutAtBreaks;
    groups := [];
    assert indices[..0] == [] && indices[..|indices|] == indices;
    for i := 0 to |indices|
      invariant groups == page.Grouped(indices[..i])
    {
      var index := indices[i];
      assert indices[..i + 1][..i] == indices[..i];
      if groups != [] && page.Joins(Last(groups[|groups| - 1]), index) {
        groups := groups[..|groups| - 1] + [groups[|groups| - 1] + [index]];
      } else {
        groups := groups + [[index]];
      }
    }
    GroupedFlattens(page, indices);
    GroupedCuts(page, indices);
  }

  // ----- the augmenter

  datatype Attachment = Attachment(
    ownerId: string,
    leadingRegionId: Option<string>, inlineRegionId: Option<string>, trailingRegionId: Option<string>,
    leadingGapId: Option<string>, trailingGapId: Option<string>)

  datatype Augmentation = Augmentation(
    regions: seq<Region>, gaps: seq<L.Gap>, attachments: seq<Attachment>,
    preambleRegionId: Option<string>, postludeRegionId: Option<string>, orphanRegionIds: seq<string>)

  datatype Fault = CommentOutside | LayoutFault(fault: L.Fault)

  function IdIf(page: Page, kind: RegionKind, indices: seq<nat>): Option<string> {
    if indices == [] then None else Some(RegionId(page, kind, Sort(LineOrder(page), indices)))
  }

  function AttachmentFor(page: Page, owners: seq<LineOwner>, i: nat, claimed: set<nat>,
                         layout: seq<L.Attachment>): Attachment
    requires i < |owners|
  {
    var owner := owners[i];
    var gaps := Find(layout, (a: L.Attachment) => a.ownerId == owner.id);
    Attachment(owner.id,
               IdIf(page, Leading, page.Leading(claimed, owner)),
               IdIf(page, Inline, page.Inline(claimed, owner)),
               IdIf(page, Trailing, page.Trailing(claimed, owner, NextOwner(owners, i))),
               if gaps.Some? then gaps.value.leadingGapId else None,
               if gaps.Some? then gaps.value.trailingGapId else None)
  }

  function AttachmentAt(page: Page, owners: seq<LineOwner>, i: nat, layout: seq<L.Attachment>): Attachment
    requires i < |owners|
  {
    AttachmentFor(page, owners, i, Claimed(OwnerClaims(page, owners, i)), layout)
  }

  function ClaimId(page: Page, claim: Claim): string {
    if claim.indices == [] then "" else RegionId(page, claim.kind, claim.indices)
  }

  /** The region ids of the claims of one kind, in order. */
  function IdsOfKind(page: Page, claims: seq<Claim>, kind: RegionKind): seq<string> {
    if claims == [] then []
    else
      var last := claims[|claims| - 1];
      IdsOfKind(page, claims[..|claims| - 1], kind) + if last.kind == kind then [ClaimId(page, last)] else []
  }

  function AsIds(id: Option<string>): seq<string> {
    if id.Some? then [id.value] else []
  }

  lemma {:induction false} IdsOfKindAppend(page: Page, a: seq<Claim>, b: seq<Claim>, kind: RegionKind)
    ensures IdsOfKind(page, a + b, kind) == IdsOfKind(page, a, kind) + IdsOfKind(page, b, kind)
  {
    if b == [] {
      assert a + b == a;
    } else {
      var n := |b| - 1;
      IdsOfKindAppend(page, a, b[..n], kind);
      assert (a + b)[..|a + b| - 1] == a + b[..n];
    }
  }

  lemma ClaimsGrow(a: seq<Claim>, b: seq<Claim>)
    ensures Claimed(a + b) == Claimed(a) + Claimed(b)
  {
    forall k | k in Claimed(a + b) ensures k in Claimed(a) || k in Claimed(b) {
      var i :| 0 <= i < |a + b| && k in (a + b)[i].indices;
      if i >= |a| {
        assert k in b[i - |a|].indices;
      }
    }
    forall k | k in Claimed(a) || k in Claimed(b) ensures k in Claimed(a + b) {
      if k in Claimed(a) {
        var i :| 0 <= i < |a| && k in a[i].indices;
        assert (a + b)[i] == a[i];
      } else {
        var i :| 0 <= i < |b| && k in b[i].indices;
        assert (a + b)[|a| + i] == b[i];
      }
    }
  }

  function Members(indices: seq<nat>): set<nat> {
    set k | k in indices
  }

  lemma ClaimedIf(page: Page, kind: RegionKind, ownerId: string, indices: seq<nat>, floating: bool)
    ensures Claimed(ClaimIf(page, kind, ownerId, indices, floating)) == Members(indices)
  {
    SortKeepsMembers(LineOrder(page), indices);
    var claims := ClaimIf(page, kind, ownerId, indices, floating);
    forall k ensures k in Claimed(claims) <==> k in indices {
      if indices != [] {
        assert k in claims[0].indices <==> k in indices;
      }
    }
  }

  lemma LeadingIsInPage(page: Page, owner: LineOwner, claimed: set<nat>)
    ensures InPage(page, page.Leading(claimed, owner))
  {
    hide Page.Taken, Page.Stop, Page.FirstBlank, Page.Blank, InPage, Filter;
    var start := owner.startLine;
    var above := if start == 0 then 0 else start - 1;
    var taken := page.Taken(claimed, page.Stop(claimed, start, above) + 1, start);
    BoundedIsInPage(page, taken);
    if page.FirstBlank(1, start).Some? {
      FilterInPage(page, taken, page.IsBelow(page.FirstBlank(1, start).value));
    }
  }

  lemma TrailingIsInPage(page: Page, owner: LineOwner, next: Option<LineOwner>, claimed: set<nat>)
    ensures InPage(page, page.Trailing(claimed, owner, next))
  {
    hide Page.TrailingFrom, Page.SkipBlank, Page.Blank;
  }

  lemma RoundIsInPage(page: Page, owner: LineOwner, next: Option<LineOwner>, claimed: set<nat>)
    ensures InPage(page, page.Leading(claimed, owner))
    ensures InPage(page, page.Inline(claimed, owner))
    ensures InPage(page, page.Trailing(claimed, owner, next))
  {
    hide Page.Leading, Page.Trailing, InPage, Select;
    LeadingIsInPage(page, owner, claimed);
    SelectIsInPage(page, page.IsInline(claimed, owner));
    TrailingIsInPage(page, owner, next, claimed);
  }

  lemma BoundedIsInPage(page: Page, indices: seq<nat>)
    requires forall i :: 0 <= i < |indices| ==> indices[i] < |page.comments|
    ensures InPage(page, indices)
  {}

  lemma RoundClaims(page: Page, owners: seq<LineOwner>, i: nat, claimed: set<nat>)
    requires i < |owners|
    ensures Claimed(OwnerRound(page, owners, i, claimed)) ==
            Members(page.Leading(claimed, owners[i])) + Members(page.Inline(claimed, owners[i]))
            + Members(page.Trailing(claimed, owners[i], NextOwner(owners, i)))
  {
    hide Claimed, ClaimIf, Members, Page.Leading, Page.Inline, Page.Trailing, Floats;
    var owner := owners[i];
    var leading, inline := page.Leading(claimed, owner), page.Inline(claimed, owner);
    var trailing := page.Trailing(claimed, owner, NextOwner(owners, i));
    var floating := Floats(page, leading, owner);
    var first, second := ClaimIf(page, Leading, owner.id, leading, floating),
        ClaimIf(page, Inline, owner.id, inline, false);
    ClaimedIf(page, Leading, owner.id, leading, floating);
    ClaimedIf(page, Inline, owner.id, inline, false);
    ClaimedIf(page, Trailing, owner.id, trailing, false);
    ClaimsGrow(first, second);
    ClaimsGrow(first + second, ClaimIf(page, Trailing, owner.id, trailing, false));
  }

  /** One round of the owner loop. */
  method AttachOwner(page: Page, owners: seq<LineOwner>, i: nat, claimed: set<nat>, layout: seq<L.Attachment>,
                     style: string, out: Regions, ghost claims: seq<Claim>)
    returns (attachment: Attachment, nowClaimed: set<nat>)
    requires i < |owners| && Reported(page, style, claims, out.regions, out.observed)
    modifies out
    ensures Reported(page, style, claims + OwnerRound(page, owners, i, claimed), out.regions, out.observed)
    ensures attachment == AttachmentFor(page, owners, i, claimed, layout)
    ensures nowClaimed == claimed + Claimed(OwnerRound(page, owners, i, claimed))
  {
    hide Reported, InPage, Claimed, Page.Leading, Page.Inline, Page.Trailing, RegionId, ClaimIf, Members, Floats,
      LineOrder, NextOwner;
    var owner := owners[i];
    RoundIsInPage(page, owner, NextOwner(owners, i), claimed);
    RoundClaims(page, owners, i, claimed);
    var leading := LeadingCommentIndices(page, owner, claimed);
    var inline := page.Inline(claimed, owner);
    var trailing := TrailingCommentIndices(page, owner, NextOwner(owners, i), claimed);
    var floating := Floats(page, leading, owner);
    ghost var first := ClaimIf(page, Leading, owner.id, leading, floating);
    ghost var second := ClaimIf(page, Inline, owner.id, inline, false);
    ghost var third := ClaimIf(page, Trailing, owner.id, trailing, false);
    var leadingId := out.Push(page, Leading, owner.id, leading, style, true, floating, claims);
    var inlineId := out.Push(page, Inline, owner.id, inline, style, false, false, claims + first);
    Associative(claims, first, second);
    var trailingId := out.Push(page, Trailing, owner.id, trailing, style, true, false, claims + first + second);
    Associative(claims, first + second, third);
    nowClaimed := claimed + Members(leading) + Members(inline) + Members(trailing);
    var gaps := Find(layout, (a: L.Attachment) => a.ownerId == owner.id);
    attachment := Attachment(owner.id, leadingId, inlineId, trailingId,
                             if gaps.Some? then gaps.value.leadingGapId else None,
                             if gaps.Some? then gaps.value.trailingGapId else None);
  }

  lemma IdsOfOne(page: Page, kind: RegionKind, indices: seq<nat>, wanted: RegionKind)
    ensures IdsOfKind(page, DocumentClaim(page, kind, indices), wanted) ==
            if kind == wanted then AsIds(IdIf(page, kind, indices)) else []
  {
    hide RegionId;
    if indices != [] {
      var claim := Claim(kind, DocumentOwner(kind), Sort(LineOrder(page), indices), false);
      assert |claim.indices| == |indices|;
      assert [claim][..0] == [];
      assert IdsOfKind(page, [], wanted) == [];
    }
  }

  lemma IdsOfTwo(page: Page, preamble: seq<nat>, detached: seq<nat>)
    ensures var both := DocumentClaim(page, Preamble, preamble) + DocumentClaim(page, Orphan, detached);
            && IdsOfKind(page, both, Preamble) == AsIds(IdIf(page, Preamble, preamble))
            && IdsOfKind(page, both, Orphan) == AsIds(IdIf(page, Orphan, detached))
  {
    hide IdsOfKind, DocumentClaim, IdIf;
    var head, tail := DocumentClaim(page, Preamble, preamble), DocumentClaim(page, Orphan, detached);
    IdsOfKindAppend(page, head, tail, Preamble);
    IdsOfKindAppend(page, head, tail, Orphan);
    IdsOfOne(page, Preamble, preamble, Preamble);
    IdsOfOne(page, Preamble, preamble, Orphan);
    IdsOfOne(page, Orphan, detached, Preamble);
    IdsOfOne(page, Orphan, detached, Orphan);
  }

  lemma FilterInPage(page: Page, group: seq<nat>, keep: nat -> bool)
    requires InPage(page, group)
    ensures InPage(page, Filter(group, keep))
  {
    FilterMembers(group, keep);
    var kept := Filter(group, keep);
    assert forall i :: 0 <= i < |kept| ==> kept[i] in kept;
  }

  /** One round of the loop over the remaining groups. */
  method PlaceGroup(page: Page, owners: seq<LineOwner>, group: seq<nat>, preambleId: Option<string>,
                    style: string, out: Regions, ghost claims: seq<Claim>)
    returns (nowPreamble: Option<string>, orphans: seq<string>)
    requires group != [] && InPage(page, group) && Reported(page, style, claims, out.regions, out.observed)
    modifies out
    ensures Reported(page, style, claims + GroupClaims(page, owners, group, preambleId.Some?), out.regions,
                     out.observed)
    ensures AsIds(nowPreamble) ==
            AsIds(preambleId) + IdsOfKind(page, GroupClaims(page, owners, group, preambleId.Some?), Preamble)
    ensures orphans == IdsOfKind(page, GroupClaims(page, owners, group, preambleId.Some?), Orphan)
  {
    hide Reported, InPage, RegionId, Page.Blank, IdsOfKind, Page.LineOf, ClaimIf, LineOrder, SplitLine, BeforeOwners,
      IsAbove, NotAbove, DocumentOwner;
    nowPreamble, orphans := preambleId, [];
    var isPreamble := preambleId.None? && BeforeOwners(page, owners, group);
    if isPreamble {
      var split := SplitLine(page, owners, group);
      if split.Some? {
        var preamble, detached := Filter(group, IsAbove(page, split.value)), Filter(group, NotAbove(page, split.value));
        if preamble != [] {
          ghost var head := DocumentClaim(page, Preamble, preamble);
          ghost var tail := DocumentClaim(page, Orphan, detached);
          FilterInPage(page, group, IsAbove(page, split.value));
          FilterInPage(page, group, NotAbove(page, split.value));
          nowPreamble := out.Push(page, Preamble, DocumentOwner(Preamble), preamble, style, true, false, claims);
          var orphan := out.Push(page, Orphan, DocumentOwner(Orphan), detached, style, true, false, claims + head);
          if orphan.Some? {
            orphans := [orphan.value];
          }
          Associative(claims, head, tail);
          IdsOfTwo(page, preamble, detached);
          return;
        }
      }
    }
    var kind := if isPreamble then Preamble else Orphan;
    IdsOfOne(page, kind, group, Preamble);
    IdsOfOne(page, kind, group, Orphan);
    var id := out.Push(page, kind, DocumentOwner(kind), group, style, true, false, claims);
    if id.Some? {
      if isPreamble {
        nowPreamble := id;
      } else {
        orphans := [id.value];
      }
    }
  }

  predicate InSource(lineCount: nat, comment: TrackedComment) {
    1 <= comment.line <= lineCount
  }

  predicate AllInSource(lineCount: nat, comments: seq<TrackedComment>) {
    forall k :: 0 <= k < |comments| ==> InSource(lineCount, comments[k])
  }

  function LayoutAttachments(owners: seq<LineOwner>, gaps: seq<L.Gap>): seq<L.Attachment> {
    Map((owner: LineOwner) => L.AttachmentOf(owner, gaps), Sort(L.ByPosition(), owners))
  }

  /** The regions are those of the claims, and everything else names regions and gaps by their owners. */
  ghost predicate Augmented(page: Page, owners: seq<LineOwner>, style: string, a: Augmentation,
                            observed: seq<Observation>)
  {
    var groups := RemainingGroups(page, owners);
    var rest := RestClaims(page, owners, groups, |groups|);
    && Reported(page, style, AllClaims(page, owners), a.regions, observed)
    && L.GapsOf(page.lines, Sort(L.ByPosition(), owners), [], a.gaps)
    && |a.attachments| == |owners|
    && (forall i :: 0 <= i < |owners| ==>
          a.attachments[i] == AttachmentAt(page, owners, i, LayoutAttachments(owners, a.gaps)))
    && AsIds(a.preambleRegionId) == IdsOfKind(page, rest, Preamble)
    && AsIds(a.postludeRegionId) == IdsOfKind(page, PostludeClaims(page, owners), Postlude)
    && a.orphanRegionIds == IdsOfKind(page, rest, Orphan)
  }

  /** The owner loop. */
  method AttachOwners(page: Page, owners: seq<LineOwner>, layout: seq<L.Attachment>, style: string, out: Regions)
    returns (attachments: seq<Attachment>, claimed: set<nat>)
    requires Reported(page, style, [], out.regions, out.observed)
    modifies out
    ensures Reported(page, style, OwnerClaims(page, owners, |owners|), out.regions, out.observed)
    ensures claimed == Claimed(OwnerClaims(page, owners, |owners|))
    ensures |attachments| == |owners|
    ensures forall i :: 0 <= i < |owners| ==> attachments[i] == AttachmentAt(page, owners, i, layout)
  {
    hide Reported, AttachmentFor, OwnerRound, Claimed;
    attachments, claimed := [], {};
    assert Claimed([]) == {} by { NothingClaimed(); }
    for i := 0 to |owners|
      invariant Reported(page, style, OwnerClaims(page, owners, i), out.regions, out.observed)
      invariant claimed == Claimed(OwnerClaims(page, owners, i))
      invariant |attachments| == i
      invariant forall j :: 0 <= j < i ==> attachments[j] == AttachmentAt(page, owners, j, layout)
    {
      ghost var before := OwnerClaims(page, owners, i);
      ClaimsGrow(before, OwnerRound(page, owners, i, claimed));
      var attachment;
      attachment, claimed := AttachOwner(page, owners, i, claimed, layout, style, out, before);
      attachments := attachments + [attachment];
    }
  }

  lemma NothingClaimed()
    ensures Claimed([]) == {}
  {}

  lemma {:induction false} PieceInFlatten<T>(pieces: seq<seq<T>>, g: nat)
    requires g < |pieces|
    ensures forall x :: x in pieces[g] ==> x in Flatten(pieces)
  {
    if g > 0 {
      PieceInFlatten(pieces[1..], g - 1);
    }
  }

  lemma GroupsAreInPage(page: Page, indices: seq<nat>)
    requires InPage(page, indices)
    ensures forall g :: 0 <= g < |page.Grouped(indices)| ==> InPage(page, page.Grouped(indices)[g])
  {
    GroupedFlattens(page, indices);
    var groups := page.Grouped(indices);
    forall g, i | 0 <= g < |groups| && 0 <= i < |groups[g]| ensures groups[g][i] < |page.comments| {
      PieceInFlatten(groups, g);
      assert groups[g][i] in Flatten(groups);
    }
  }

  lemma SelectIsInPage(page: Page, p: nat -> bool)
    ensures InPage(page, Select(|page.comments|, p))
  {
    var s := Select(|page.comments|, p);
    assert forall i :: 0 <= i < |s| ==> s[i] in s;
  }

  /** The loop over the remaining groups. */
  method PlaceGroups(page: Page, owners: seq<LineOwner>, groups: seq<seq<nat>>, style: string, out: Regions,
                     ghost claims: seq<Claim>)
    returns (preambleId: Option<string>, orphans: seq<string>)
    requires forall g :: 0 <= g < |groups| ==> groups[g] != [] && InPage(page, groups[g])
    requires Reported(page, style, claims, out.regions, out.observed)
    modifies out
    ensures Reported(page, style, claims + RestClaims(page, owners, groups, |groups|), out.regions, out.observed)
    ensures AsIds(preambleId) == IdsOfKind(page, RestClaims(page, owners, groups, |groups|), Preamble)
    ensures orphans == IdsOfKind(page, RestClaims(page, owners, groups, |groups|), Orphan)
  {
    hide Reported, GroupClaims, InPage;
    preambleId, orphans := None, [];
    assert claims + [] == claims;
    for g := 0 to |groups|
      invariant Reported(page, style, claims + RestClaims(page, owners, groups, g), out.regions, out.observed)
      invariant AsIds(preambleId) == IdsOfKind(page, RestClaims(page, owners, groups, g), Preamble)
      invariant orphans == IdsOfKind(page, RestClaims(page, owners, groups, g), Orphan)
    {
      ghost var before := RestClaims(page, owners, groups, g);
      IdsTellKind(page, before, Preamble);
      ghost var more := GroupClaims(page, owners, groups[g], preambleId.Some?);
      IdsOfKindAppend(page, before, more, Preamble);
      IdsOfKindAppend(page, before, more, Orphan);
      Associative(claims, before, more);
      var ids;
      preambleId, ids := PlaceGroup(page, owners, groups[g], preambleId, style, out, claims + before);
      orphans := orphans + ids;
    }
  }

  lemma {:induction false} IdsTellKind(page: Page, claims: seq<Claim>, kind: RegionKind)
    ensures IdsOfKind(page, claims, kind) != [] <==> HasKind(claims, kind)
  {
    if claims != [] {
      var n := |claims| - 1;
      IdsTellKind(page, claims[..n], kind);
      if HasKind(claims, kind) {
        var i :| 0 <= i < |claims| && claims[i].kind == kind;
        assert i < n ==> claims[..n][i] == claims[i];
      }
    }
  }

  /** After the owners: the postlude, then whatever full-line comments remain. */
  method AttachToDocument(page: Page, owners: seq<LineOwner>, claimed: set<nat>, style: string, out: Regions)
    returns (postludeId: Option<string>, preambleId: Option<string>, orphans: seq<string>)
    requires claimed == Claimed(OwnerClaims(page, owners, |owners|))
    requires Reported(page, style, OwnerClaims(page, owners, |owners|), out.regions, out.observed)
    modifies out
    ensures Reported(page, style, AllClaims(page, owners), out.regions, out.observed)
    ensures AsIds(postludeId) == IdsOfKind(page, PostludeClaims(page, owners), Postlude)
    ensures var groups := RemainingGroups(page, owners);
            && AsIds(preambleId) == IdsOfKind(page, RestClaims(page, owners, groups, |groups|), Preamble)
            && orphans == IdsOfKind(page, RestClaims(page, owners, groups, |groups|), Orphan)
  {
    hide Reported, OwnerClaims, InPage, Claimed, Page.Grouped, RestClaims, ClaimIf, Members, DocumentOwner, Select,
      IdsOfKind, RegionId, LineOrder;
    ghost var first := OwnerClaims(page, owners, |owners|);
    var postlude := Select(|page.comments|, page.IsPostlude(claimed, owners));
    SelectIsInPage(page, page.IsPostlude(claimed, owners));
    ghost var second := DocumentClaim(page, Postlude, postlude);
    postludeId := out.Push(page, Postlude, DocumentOwner(Postlude), postlude, style, true, false, first);
    IdsOfOne(page, Postlude, postlude, Postlude);
    ClaimsGrow(first, second);
    ClaimedIf(page, Postlude, DocumentOwner(Postlude), postlude, false);
    var nowClaimed := claimed + Members(postlude);
    var remaining := Select(|page.comments|, page.IsRemaining(nowClaimed));
    SelectIsInPage(page, page.IsRemaining(nowClaimed));
    GroupsAreInPage(page, remaining);
    var groups := GroupComments(page, remaining);
    preambleId, orphans := PlaceGroups(page, owners, groups, style, out, first + second);
  }

  method CheckComments(lineCount: nat, comments: seq<TrackedComment>) returns (ok: bool)
    ensures ok <==> AllInSource(lineCount, comments)
  {
    for k := 0 to |comments|
      invariant forall j :: 0 <= j < k ==> InSource(lineCount, comments[j])
    {
      if comments[k].line == 0 || comments[k].line > lineCount {
        return false;
      }
    }
    ok := true;
  }

  /** `augment_comments_observed`. */
  method AugmentCommentsObserved(lines: seq<string>, owners: seq<LineOwner>, comments: seq<TrackedComment>,
                                 style: string, indents: map<string, nat>, policy: Policy)
    returns (r: Result<Augmentation, Fault>, observed: seq<Observation>)
    ensures var ordered := Sort(L.ByPosition(), owners);
            if !AllInSource(|lines|, comments) then
              r == Err(CommentOutside) && observed == []
            else match L.Refusal(|lines|, ordered, [])
              case Some(fault) => r == Err(LayoutFault(fault)) && observed == []
              case None =>
                r.Ok? && Augmented(Page(lines, Sort(ByLine(), comments), indents, policy), ordered, style, r.value,
                                   observed)
  {
    hide L.Refusal, L.GapsOf, Reported, AttachmentAt, OwnerClaims, RestClaims, L.AttachmentOf, PostludeClaims,
      AllClaims, RemainingGroups, IdsOfKind, AllInSource, Claimed;
    var ok := CheckComments(|lines|, comments);
    if !ok {
      return Err(CommentOutside), [];
    }
    var ordered := Sort(L.ByPosition(), owners);
    var layout := L.AugmentLayout(lines, ordered, []);
    if layout.Err? {
      return Err(LayoutFault(layout.error)), [];
    }
    var page := Page(lines, Sort(ByLine(), comments), indents, policy);
    var out := new Regions();
    assert Reported(page, style, [], out.regions, out.observed) by { NothingReported(page, style); }
    var attachments, claimed := AttachOwners(page, ordered, layout.value.attachments, style, out);
    var postludeId, preambleId, orphans := AttachToDocument(page, ordered, claimed, style, out);
    r := Ok(Augmentation(out.regions, layout.value.gaps, attachments, preambleId, postludeId, orphans));
    observed := out.observed;
  }

  lemma NothingReported(page: Page, style: string)
    ensures Reported(page, style, [], [], [])
  {}
}
