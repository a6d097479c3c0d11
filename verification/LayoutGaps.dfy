/** Blank-line gaps between structural owners, and who controls each of them. */
module LayoutGaps {
  import opened Wrappers
  import opened Sequences
  import opened Sorting
  import opened Text
  import opened LineDispositions

  // ----- blank runs

  datatype Run = Run(startLine: nat, endLine: nat)

  predicate AllBlank(lines: seq<string>, a: nat, b: nat)
    requires a <= b <= |lines|
  {
    forall k :: a <= k < b ==> IsBlank(lines[k])
  }

  /** A run of blank lines that cannot be extended on either side. */
  predicate IsBlankRun(lines: seq<string>, run: Run) {
    && 1 <= run.startLine <= run.endLine <= |lines|
    && AllBlank(lines, run.startLine - 1, run.endLine)
    && (run.startLine == 1 || !IsBlank(lines[run.startLine - 2]))
    && (run.endLine == |lines| || !IsBlank(lines[run.endLine]))
  }

  predicate RunsAscend(runs: seq<Run>) {
    forall i, j :: 0 <= i < j < |runs| ==> runs[i].endLine < runs[j].startLine
  }

  /** The runs are exactly the maximal blank runs that end by line `n`, in order. */
  ghost predicate RunsUpTo(lines: seq<string>, runs: seq<Run>, n: nat) {
    && RunsAscend(runs)
    && forall run :: run in runs <==> IsBlankRun(lines, run) && run.endLine <= n
  }

  /** No run of blank lines crosses the cut before line index `n`. */
  predicate IsCut(lines: seq<string>, n: nat)
    requires n <= |lines|
  {
    0 < n < |lines| ==> !IsBlank(lines[n - 1]) || !IsBlank(lines[n])
  }

  lemma PushRun(lines: seq<string>, runs: seq<Run>, start: nat, end: nat)
    requires start < end <= |lines| && IsCut(lines, start) && AllBlank(lines, start, end)
    requires end == |lines| || !IsBlank(lines[end])
    requires RunsUpTo(lines, runs, start)
    ensures RunsUpTo(lines, runs + [Run(start + 1, end)], end)
  {
    var run := Run(start + 1, end);
    assert IsBlank(lines[start]);
    forall other | IsBlankRun(lines, other) && start < other.endLine <= end ensures other == run {
    }
    assert forall k :: 0 <= k < |runs| ==> runs[k] in runs;
  }

  lemma PassLine(lines: seq<string>, runs: seq<Run>, n: nat)
    requires n < |lines| && !IsBlank(lines[n]) && RunsUpTo(lines, runs, n)
    ensures RunsUpTo(lines, runs, n + 1)
  {
    forall run | IsBlankRun(lines, run) && run.endLine <= n + 1 ensures run.endLine <= n {
    }
  }

  /** `blank_runs`. */
  method BlankRuns(lines: seq<string>) returns (runs: seq<Run>)
    ensures RunsAscend(runs)
    ensures forall run :: run in runs <==> IsBlankRun(lines, run)
  {
    runs := [];
    var index := 0;
    while index < |lines|
      invariant index <= |lines| && IsCut(lines, index)
      invariant RunsUpTo(lines, runs, index)
    {
      if !IsBlank(lines[index]) {
        PassLine(lines, runs, index);
        index := index + 1;
      } else {
        var start := index;
        while index < |lines| && IsBlank(lines[index])
          invariant start <= index <= |lines|
          invariant AllBlank(lines, start, index)
          invariant index == start ==> IsBlank(lines[start])
        {
          index := index + 1;
        }
        PushRun(lines, runs, start, index);
        runs := runs + [Run(start + 1, index)];
      }
    }
  }

  /** Every blank line is in a run. */
  lemma BlankLineIsInRun(lines: seq<string>, k: nat) returns (run: Run)
    requires k < |lines| && IsBlank(lines[k])
    ensures IsBlankRun(lines, run) && run.startLine <= k + 1 <= run.endLine
  {
    var a, b := k, k + 1;
    while a > 0 && IsBlank(lines[a - 1])
      invariant 0 <= a <= k < b && AllBlank(lines, a, b)
    {
      a := a - 1;
    }
    while b < |lines| && IsBlank(lines[b])
      invariant 0 <= a <= k < b <= |lines| && AllBlank(lines, a, b)
    {
      b := b + 1;
    }
    run := Run(a + 1, b);
  }

  // ----- the edges of a run

  datatype Boundary = Boundary(ownerId: string, kind: string, startLine: nat, endLine: nat)

  datatype Gap = Gap(
    id: string, kind: string, startLine: nat, endLine: nat, lines: seq<string>,
    beforeOwnerId: Option<string>, afterOwnerId: Option<string>, controllerSide: string)
  {
    function OwnerIdFor(side: string): Option<string> {
      if side == "before" then beforeOwnerId else if side == "after" then afterOwnerId else None
    }

    function ControllerOwnerId(): Option<string> { OwnerIdFor(controllerSide) }
  }

  datatype Attachment = Attachment(ownerId: string, leadingGapId: Option<string>, trailingGapId: Option<string>)

  datatype Augmentation = Augmentation(gaps: seq<Gap>, attachments: seq<Attachment>)

  function HasId(id: string): LineOwner -> bool {
    (owner: LineOwner) => owner.id == id
  }

  function EndsAbove(line: nat): LineOwner -> bool {
    (owner: LineOwner) => owner.endLine + 1 == line
  }

  function StartsBelow(line: nat): LineOwner -> bool {
    (owner: LineOwner) => owner.startLine == line + 1
  }

  function TrailingAbove(line: nat): Boundary -> bool {
    (b: Boundary) => b.kind == "trailing" && b.endLine + 1 == line
  }

  function LeadingBelow(line: nat): Boundary -> bool {
    (b: Boundary) => b.kind == "leading" && b.startLine == line + 1
  }

  function OwnerOf(owners: seq<LineOwner>, boundary: Option<Boundary>): Option<LineOwner> {
    if boundary.Some? then Find(owners, HasId(boundary.value.ownerId)) else None
  }

  /** The owners a run touches: by their own lines, or by an attached comment. */
  datatype Edges = Edges(
    structuralBefore: Option<LineOwner>, structuralAfter: Option<LineOwner>,
    commentBefore: Option<LineOwner>, commentAfter: Option<LineOwner>)
  {
    function Before(): Option<LineOwner> { if structuralBefore.Some? then structuralBefore else commentBefore }
    function After(): Option<LineOwner> { if structuralAfter.Some? then structuralAfter else commentAfter }

    function Kind(): string {
      if Before().None? then "preamble" else if After().None? then "postlude" else "interstitial"
    }

    function ControllerSide(): string {
      if structuralBefore.Some? && structuralAfter.None? && commentAfter.Some? then "before"
      else if After().Some? then "after"
      else "before"
    }
  }

  function EdgesOf(owners: seq<LineOwner>, boundaries: seq<Boundary>, run: Run): Edges {
    Edges(FindLast(owners, EndsAbove(run.startLine)), Find(owners, StartsBelow(run.endLine)),
          OwnerOf(owners, FindLast(boundaries, TrailingAbove(run.startLine))),
          OwnerOf(owners, Find(boundaries, LeadingBelow(run.endLine))))
  }

  function IdOf(owner: Option<LineOwner>): Option<string> {
    if owner.Some? then Some(owner.value.id) else None
  }

  function GapId(run: Run): string {
    "layout-gap:" + Decimal(run.startLine) + "-" + Decimal(run.endLine)
  }

  function GapAt(lines: seq<string>, edges: Edges, run: Run): Gap
    requires 1 <= run.startLine <= run.endLine <= |lines|
  {
    Gap(GapId(run), edges.Kind(), run.startLine, run.endLine, lines[run.startLine - 1..run.endLine],
        IdOf(edges.Before()), IdOf(edges.After()), edges.ControllerSide())
  }

  predicate Touches(edges: Edges) {
    edges.Before().Some? || edges.After().Some?
  }

  // ----- what is accepted

  datatype Fault = InvalidOwner | OwnersOverlap | InvalidBoundary

  function ByPosition(): (LineOwner, LineOwner) -> bool {
    (a: LineOwner, b: LineOwner) => a.startLine < b.startLine || (a.startLine == b.startLine && a.endLine <= b.endLine)
  }

  predicate OwnersInRange(lineCount: nat, owners: seq<LineOwner>) {
    forall k :: 0 <= k < |owners| ==> OwnerFits(lineCount, owners[k])
  }

  predicate NeighboursApart(owners: seq<LineOwner>) {
    forall k :: 0 <= k < |owners| - 1 ==> owners[k].endLine < owners[k + 1].startLine
  }

  /** A boundary names an owner and lies, in range, on the side its kind says. */
  predicate BoundaryFits(lineCount: nat, owners: seq<LineOwner>, boundary: Boundary) {
    var owner := Find(owners, HasId(boundary.ownerId));
    && owner.Some?
    && ValidRange(boundary.startLine, boundary.endLine, lineCount)
    && ((boundary.kind == "leading" && boundary.endLine < owner.value.startLine)
        || (boundary.kind == "trailing" && boundary.startLine > owner.value.endLine))
  }

  function Refusal(lineCount: nat, owners: seq<LineOwner>, boundaries: seq<Boundary>): Option<Fault> {
    var ordered := Sort(ByPosition(), owners);
    if !OwnersInRange(lineCount, owners) then Some(InvalidOwner)
    else if !NeighboursApart(ordered) then Some(OwnersOverlap)
    else if exists k :: 0 <= k < |boundaries| && !BoundaryFits(lineCount, ordered, boundaries[k]) then
      Some(InvalidBoundary)
    else None
  }

  function TrailsIn(id: string): Gap -> bool {
    (gap: Gap) => gap.beforeOwnerId == Some(id)
  }

  function LeadsIn(id: string): Gap -> bool {
    (gap: Gap) => gap.afterOwnerId == Some(id)
  }

  function IdOfGap(gap: Option<Gap>): Option<string> {
    if gap.Some? then Some(gap.value.id) else None
  }

  function AttachmentOf(owner: LineOwner, gaps: seq<Gap>): Attachment {
    Attachment(owner.id, IdOfGap(Find(gaps, LeadsIn(owner.id))), IdOfGap(Find(gaps, TrailsIn(owner.id))))
  }

  /** The gap belongs to a touching blank run among `runs`. */
  ghost predicate IsGapOf(lines: seq<string>, owners: seq<LineOwner>, boundaries: seq<Boundary>, gap: Gap) {
    var run := Run(gap.startLine, gap.endLine);
    && IsBlankRun(lines, run)
    && Touches(EdgesOf(owners, boundaries, run))
    && gap == GapAt(lines, EdgesOf(owners, boundaries, run), run)
  }

  predicate GapsAscend(gaps: seq<Gap>) {
    forall i, j :: 0 <= i < j < |gaps| ==> gaps[i].endLine < gaps[j].startLine
  }

  /** One gap for every touching blank run, in order: this leaves no choice. */
  ghost predicate GapsOf(lines: seq<string>, owners: seq<LineOwner>, boundaries: seq<Boundary>, gaps: seq<Gap>) {
    && GapsAscend(gaps)
    && forall gap :: gap in gaps <==> IsGapOf(lines, owners, boundaries, gap)
  }

  // ----- the augmenter

  method CheckOwners(lineCount: nat, owners: seq<LineOwner>) returns (ok: bool)
    ensures ok <==> OwnersInRange(lineCount, owners)
  {
    for k := 0 to |owners|
      invariant OwnersInRange(lineCount, owners[..k])
    {
      var owner := owners[k];
      assert owners[k] == owners[..k + 1][k];
      if owner.id == "" {
        return false;
      }
      if owner.startLine == 0 || owner.endLine < owner.startLine {
        return false;
      }
      if owner.endLine > lineCount {
        return false;
      }
    }
    ok := true;
  }

  method CheckNeighbours(ordered: seq<LineOwner>) returns (ok: bool)
    ensures ok <==> NeighboursApart(ordered)
  {
    for k := 0 to |ordered|
      invariant forall j :: 0 <= j < k && j < |ordered| - 1 ==> ordered[j].endLine < ordered[j + 1].startLine
    {
      if k + 1 < |ordered| && ordered[k + 1].startLine <= ordered[k].endLine {
        return false;
      }
    }
    ok := true;
  }

  method CheckBoundaries(lineCount: nat, ordered: seq<LineOwner>, boundaries: seq<Boundary>) returns (ok: bool)
    ensures ok <==> forall k :: 0 <= k < |boundaries| ==> BoundaryFits(lineCount, ordered, boundaries[k])
  {
    for k := 0 to |boundaries|
      invariant forall j :: 0 <= j < k ==> BoundaryFits(lineCount, ordered, boundaries[j])
    {
      var boundary := boundaries[k];
      var owner := Find(ordered, HasId(boundary.ownerId));
      if owner.None? {
        return false;
      }
      if boundary.startLine == 0 || boundary.endLine < boundary.startLine || boundary.endLine > lineCount {
        return false;
      }
      if boundary.kind == "leading" {
        if !(boundary.endLine < owner.value.startLine) {
          return false;
        }
      } else if boundary.kind == "trailing" {
        if !(boundary.startLine > owner.value.endLine) {
          return false;
        }
      } else {
        return false;
      }
    }
    ok := true;
  }

  /** The gaps of the first `k` runs. */
  ghost predicate GapsUpTo(lines: seq<string>, owners: seq<LineOwner>, boundaries: seq<Boundary>,
                           runs: seq<Run>, k: nat, gaps: seq<Gap>)
    requires k <= |runs|
  {
    && GapsAscend(gaps)
    && forall gap :: gap in gaps <==>
         Run(gap.startLine, gap.endLine) in runs[..k] && IsGapOf(lines, owners, boundaries, gap)
  }

  lemma NextRun(lines: seq<string>, owners: seq<LineOwner>, boundaries: seq<Boundary>,
                runs: seq<Run>, k: nat, gaps: seq<Gap>)
    requires k < |runs| && RunsAscend(runs) && IsBlankRun(lines, runs[k])
    requires GapsUpTo(lines, owners, boundaries, runs, k, gaps)
    ensures var edges := EdgesOf(owners, boundaries, runs[k]);
            GapsUpTo(lines, owners, boundaries, runs, k + 1,
                     gaps + if Touches(edges) then [GapAt(lines, edges, runs[k])] else [])
  {
    hide IsBlankRun, EdgesOf;
    var edges := EdgesOf(owners, boundaries, runs[k]);
    assert runs[..k + 1] == runs[..k] + [runs[k]];
    assert gaps + [] == gaps;
    forall i | 0 <= i < |gaps| ensures gaps[i].endLine < runs[k].startLine {
      assert gaps[i] in gaps;
      var j :| 0 <= j < |runs[..k]| && runs[..k][j] == Run(gaps[i].startLine, gaps[i].endLine);
      assert runs[j].endLine < runs[k].startLine;
    }
  }

  /** The gap loop of the augmenter. */
  method CollectGaps(lines: seq<string>, owners: seq<LineOwner>, boundaries: seq<Boundary>) returns (gaps: seq<Gap>)
    ensures GapsOf(lines, owners, boundaries, gaps)
  {
    hide IsBlankRun, IsGapOf, GapsAscend;
    var runs := BlankRuns(lines);
    gaps := [];
    assert GapsAscend(gaps) by { NoGapsAscend(); }
    for k := 0 to |runs|
      invariant GapsUpTo(lines, owners, boundaries, runs, k, gaps)
    {
      var run := runs[k];
      assert run in runs;
      NextRun(lines, owners, boundaries, runs, k, gaps);
      RunIsInRange(lines, run);
      var structuralBefore := FindLast(owners, EndsAbove(run.startLine));
      var structuralAfter := Find(owners, StartsBelow(run.endLine));
      var commentBefore := OwnerOf(owners, FindLast(boundaries, TrailingAbove(run.startLine)));
      var commentAfter := OwnerOf(owners, Find(boundaries, LeadingBelow(run.endLine)));
      var before := if structuralBefore.Some? then structuralBefore else commentBefore;
      var after := if structuralAfter.Some? then structuralAfter else commentAfter;
      if before.Some? || after.Some? {
        var kind := if before.None? then "preamble" else if after.None? then "postlude" else "interstitial";
        var controllerSide := "before";
        if structuralBefore.Some? && structuralAfter.None? && commentAfter.Some? {
          controllerSide := "before";
        } else if structuralAfter.Some? || after.Some? {
          controllerSide := "after";
        }
        gaps := gaps + [Gap(GapId(run), kind, run.startLine, run.endLine, lines[run.startLine - 1..run.endLine],
                            IdOf(before), IdOf(after), controllerSide)];
      } else {
        assert gaps + [] == gaps;
      }
    }
    AllRunsSeen(lines, owners, boundaries, runs, gaps);
  }

  lemma NoGapsAscend()
    ensures GapsAscend([])
  {}

  lemma RunIsInRange(lines: seq<string>, run: Run)
    requires IsBlankRun(lines, run)
    ensures 1 <= run.startLine <= run.endLine <= |lines|
  {}

  lemma AllRunsSeen(lines: seq<string>, owners: seq<LineOwner>, boundaries: seq<Boundary>, runs: seq<Run>,
                    gaps: seq<Gap>)
    requires forall run :: run in runs <==> IsBlankRun(lines, run)
    requires GapsUpTo(lines, owners, boundaries, runs, |runs|, gaps)
    ensures GapsOf(lines, owners, boundaries, gaps)
  {
    hide IsBlankRun, GapsAscend;
    assert runs[..|runs|] == runs;
  }

  /** `augment_layout_with_comment_boundaries`. */
  method AugmentLayout(lines: seq<string>, owners: seq<LineOwner>, boundaries: seq<Boundary>)
    returns (r: Result<Augmentation, Fault>)
    ensures var ordered := Sort(ByPosition(), owners);
            match Refusal(|lines|, owners, boundaries)
            case Some(fault) => r == Err(fault)
            case None =>
              && r.Ok?
              && GapsOf(lines, ordered, boundaries, r.value.gaps)
              && r.value.attachments == Map((owner: LineOwner) => AttachmentOf(owner, r.value.gaps), ordered)
  {
    hide OwnersInRange, NeighboursApart, BoundaryFits, GapsOf, AttachmentOf;
    var ok := CheckOwners(|lines|, owners);
    if !ok {
      return Err(InvalidOwner);
    }
    var ordered := Sort(ByPosition(), owners);
    ok := CheckNeighbours(ordered);
    if !ok {
      return Err(OwnersOverlap);
    }
    ok := CheckBoundaries(|lines|, ordered, boundaries);
    if !ok {
      return Err(InvalidBoundary);
    }
    var gaps := CollectGaps(lines, ordered, boundaries);
    r := Ok(Augmentation(gaps, Map((owner: LineOwner) => AttachmentOf(owner, gaps), ordered)));
  }
}
