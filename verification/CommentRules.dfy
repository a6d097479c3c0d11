/** Which comments an owner takes, said without the searches: by lines, comments and what is claimed. */
module CommentRules {
  import opened Wrappers
  import opened Sequences
  import opened Comments

  // ----- comments on a line

  /** An owner may take the comment: it has its line to itself, belongs to an owner, and nobody took it yet. */
  predicate Free(page: Page, claimed: set<nat>, k: nat) {
    && k < |page.comments| && k !in claimed
    && page.comments[k].fullLine && page.comments[k].scope == OwnerScope
  }

  ghost predicate SomeFree(page: Page, claimed: set<nat>, line: nat) {
    exists k: nat :: Free(page, claimed, k) && page.comments[k].line == line
  }

  /** The first comment on the line that an owner may take. */
  ghost predicate FirstFree(page: Page, claimed: set<nat>, line: nat, k: nat) {
    && Free(page, claimed, k) && page.comments[k].line == line
    && forall j: nat :: j < k && Free(page, claimed, j) ==> page.comments[j].line != line
  }

  lemma CommentOnIsFirstFree(page: Page, claimed: set<nat>, line: nat)
    ensures forall k: nat :: page.CommentOn(claimed, line, 0) == Some(k) <==> FirstFree(page, claimed, line, k)
    ensures page.CommentOn(claimed, line, 0).Some? <==> SomeFree(page, claimed, line)
  {
    var found := page.CommentOn(claimed, line, 0);
    assert forall k: nat :: page.Available(claimed, line, k) <==>
           Free(page, claimed, k) && page.comments[k].line == line;
    hide Page.CommentOn;
    if found.Some? {
      assert FirstFree(page, claimed, line, found.value);
      forall k: nat | FirstFree(page, claimed, line, k) ensures k == found.value {
        assert page.Available(claimed, line, k);
      }
    }
  }

  // ----- lines an upward search passes

  /** The first free comment on the first line from `from` on, above `start`, that has one. */
  ghost predicate NearestBelow(page: Page, claimed: set<nat>, from: nat, start: nat, k: nat) {
    && Free(page, claimed, k) && from <= page.comments[k].line < start
    && FirstFree(page, claimed, page.comments[k].line, k)
    && forall line: nat :: from <= line < page.comments[k].line ==> !SomeFree(page, claimed, line)
  }

  ghost predicate PrefixBelow(page: Page, claimed: set<nat>, line: nat, start: nat) {
    exists k: nat :: NearestBelow(page, claimed, line + 1, start, k) && page.comments[k].structuralPrefix
  }

  /** A full-line comment above the line that nobody took yet. */
  predicate Above(page: Page, claimed: set<nat>, line: nat, k: nat) {
    k < |page.comments| && k !in claimed && page.comments[k].fullLine && page.comments[k].line < line
  }

  /** The nearest such comment, the last one on its line, ends a prefix, and only blank lines follow it. */
  ghost predicate PrefixRightAbove(page: Page, claimed: set<nat>, line: nat) {
    exists k: nat :: Above(page, claimed, line, k) && page.comments[k].structuralPrefix
      && (forall j: nat :: Above(page, claimed, line, j) ==>
            page.comments[j].line < page.comments[k].line || (page.comments[j].line == page.comments[k].line && j <= k))
      && forall between: nat :: page.comments[k].line < between < line ==> page.Blank(between)
  }

  /** A line that does not end an owner's upward search. */
  ghost predicate Passes(page: Page, claimed: set<nat>, start: nat, line: nat) {
    || SomeFree(page, claimed, line)
    || (&& page.Blank(line)
        && (|| page.policy == PrecedingOwner
            || PrefixBelow(page, claimed, line, start)
            || PrefixRightAbove(page, claimed, line)))
  }

  lemma {:induction false} FirstTaken(page: Page, claimed: set<nat>, from: nat, start: nat, k: nat)
    ensures FirstOf(page.Taken(claimed, from, start)) == Some(k) <==> NearestBelow(page, claimed, from, start, k)
    decreases if from < start then start - from else 0
  {
    if from < start {
      var found := page.CommentOn(claimed, from, 0);
      CommentOnIsFirstFree(page, claimed, from);
      hide Page.CommentOn;
      FirstTaken(page, claimed, from + 1, start, k);
      FirstOfLonger(AsList(found), page.Taken(claimed, from + 1, start));
    }
  }

  lemma FirstOfLonger(a: seq<nat>, b: seq<nat>)
    ensures FirstOf(a + b) == if a == [] then FirstOf(b) else Some(a[0])
  {}

  lemma PrefixAboveIsRight(page: Page, claimed: set<nat>, line: nat)
    ensures page.PrefixAbove(claimed, line) <==> PrefixRightAbove(page, claimed, line)
  {
    var nearest := page.NearestAbove(claimed, line, |page.comments|);
    if PrefixRightAbove(page, claimed, line) {
      var k: nat :| Above(page, claimed, line, k) && page.comments[k].structuralPrefix
        && (forall j: nat :: Above(page, claimed, line, j) ==>
              page.comments[j].line < page.comments[k].line
              || (page.comments[j].line == page.comments[k].line && j <= k))
        && forall between: nat :: page.comments[k].line < between < line ==> page.Blank(between);
      assert Above(page, claimed, line, nearest.value);
      assert nearest == Some(k);
    }
    if page.PrefixAbove(claimed, line) {
      assert Above(page, claimed, line, nearest.value);
    }
  }

  lemma PassingIsExact(page: Page, claimed: set<nat>, start: nat, line: nat)
    ensures page.CommentOn(claimed, line, 0).Some? || page.Passable(claimed, start, line) <==>
            Passes(page, claimed, start, line)
  {
    CommentOnIsFirstFree(page, claimed, line);
    PrefixAboveIsRight(page, claimed, line);
    hide Page.CommentOn, Page.PrefixAbove, PrefixRightAbove, SomeFree, Page.Blank, Page.Taken, FirstFree;
    forall k: nat
      ensures FirstOf(page.Taken(claimed, line + 1, start)) == Some(k) <==>
              NearestBelow(page, claimed, line + 1, start, k)
    {
      FirstTaken(page, claimed, line + 1, start, k);
    }
    if PrefixBelow(page, claimed, line, start) {
      var k: nat :| NearestBelow(page, claimed, line + 1, start, k) && page.comments[k].structuralPrefix;
      assert FirstOf(page.Taken(claimed, line + 1, start)) == Some(k);
    }
    var below := FirstOf(page.Taken(claimed, line + 1, start));
    if below.Some? && page.comments[below.value].structuralPrefix {
      assert NearestBelow(page, claimed, line + 1, start, below.value);
    }
  }

  // ----- what an owner takes from above

  /** Every line from there down to `start` lets the search pass. */
  ghost predicate Reached(page: Page, claimed: set<nat>, start: nat, line: nat) {
    forall m: nat :: line < m < start ==> Passes(page, claimed, start, m)
  }

  lemma {:induction false} StopIsBreak(page: Page, claimed: set<nat>, start: nat, line: nat)
    ensures var stop := page.Stop(claimed, start, line);
            && (stop > 0 ==> !Passes(page, claimed, start, stop))
            && forall m: nat :: stop < m <= line ==> Passes(page, claimed, start, m)
  {
    hide Passes, Page.Passable, Page.CommentOn;
    if line > 0 {
      PassingIsExact(page, claimed, start, line);
      StopStep(page, claimed, start, line);
      if page.Stop(claimed, start, line) < line {
        StopIsBreak(page, claimed, start, line - 1);
      }
    }
  }

  lemma {:induction false} TakenIsExact(page: Page, claimed: set<nat>, from: nat, end: nat, k: nat)
    ensures k in page.Taken(claimed, from, end) <==>
            Free(page, claimed, k) && from <= page.comments[k].line < end
            && FirstFree(page, claimed, page.comments[k].line, k)
    decreases if from < end then end - from else 0
  {
    if from < end {
      var found := page.CommentOn(claimed, from, 0);
      CommentOnIsFirstFree(page, claimed, from);
      hide Page.CommentOn;
      TakenIsExact(page, claimed, from + 1, end, k);
      assert k in AsList(found) <==> found == Some(k);
    }
  }

  lemma CommentPasses(page: Page, claimed: set<nat>, start: nat, k: nat)
    requires Free(page, claimed, k)
    ensures SomeFree(page, claimed, page.comments[k].line)
    ensures Passes(page, claimed, start, page.comments[k].line)
  {
    hide PrefixBelow, PrefixRightAbove, Page.Blank;
  }

  /** What the upward search from `start` takes. */
  function Searched(page: Page, claimed: set<nat>, start: nat): seq<nat>
    requires start > 0
  {
    page.Taken(claimed, page.Stop(claimed, start, start - 1) + 1, start)
  }

  lemma LeadingIsSearched(page: Page, claimed: set<nat>, owner: LineOwner)
    requires owner.startLine > 0
    ensures page.Leading(claimed, owner) ==
            page.WithoutHeader(Searched(page, claimed, owner.startLine), owner.startLine)
  {
    hide Page.WithoutHeader, Page.Taken, Page.Stop;
  }

  /** The search takes exactly the first free comments of the lines it reaches. */
  lemma SearchIsExact(page: Page, claimed: set<nat>, owner: LineOwner, k: nat)
    requires owner.startLine > 0
    ensures var start := owner.startLine;
            k in Searched(page, claimed, start) <==>
            && Free(page, claimed, k) && 0 < page.comments[k].line < start
            && FirstFree(page, claimed, page.comments[k].line, k)
            && Reached(page, claimed, start, page.comments[k].line)
  {
    hide Page.Stop, Page.Taken, FirstFree, Passes, SomeFree, Free;
    var start := owner.startLine;
    var stop := page.Stop(claimed, start, start - 1);
    StopIsBreak(page, claimed, start, start - 1);
    TakenIsExact(page, claimed, stop + 1, start, k);
    if Free(page, claimed, k) {
      FreeIsInPage(page, claimed, k);
      CommentPasses(page, claimed, start, k);
    }
  }

  lemma FreeIsInPage(page: Page, claimed: set<nat>, k: nat)
    requires Free(page, claimed, k)
    ensures k < |page.comments|
  {}

  ghost predicate BlankAbove(page: Page, line: nat) {
    exists blank: nat :: 1 <= blank < line && page.Blank(blank)
  }

  /** The search reaches a comment on line 1, and a blank line stands above the owner. */
  ghost predicate HasHeader(page: Page, claimed: set<nat>, start: nat) {
    && start > 1 && SomeFree(page, claimed, 1) && Reached(page, claimed, start, 1)
    && BlankAbove(page, start)
  }

  lemma HeaderIsFirst(page: Page, claimed: set<nat>, owner: LineOwner)
    requires owner.startLine > 0
    ensures var start := owner.startLine;
            var taken := Searched(page, claimed, start);
            HasHeader(page, claimed, start) <==>
            taken != [] && page.LineOf(taken[0]) == 1 && page.FirstBlank(1, start).Some?
  {
    hide Page.Stop, Page.Taken, Page.CommentOn, Passes, SomeFree, Free, FirstFree, NearestBelow, Page.Blank;
    var start := owner.startLine;
    var from := page.Stop(claimed, start, start - 1) + 1;
    var taken := page.Taken(claimed, from, start);
    StopIsBreak(page, claimed, start, start - 1);
    if taken != [] && page.LineOf(taken[0]) == 1 {
      FirstTaken(page, claimed, from, start, taken[0]);
      NearestIsFree(page, claimed, from, start, taken[0]);
      CommentPasses(page, claimed, start, taken[0]);
    }
    if HasHeader(page, claimed, start) {
      var k := FirstOnLine(page, claimed, 1);
      CommentPasses(page, claimed, start, k);
      assert from == 1;
      FreeIsNearest(page, claimed, start, k);
      FirstTaken(page, claimed, from, start, k);
    }
  }

  lemma NearestIsFree(page: Page, claimed: set<nat>, from: nat, start: nat, k: nat)
    requires NearestBelow(page, claimed, from, start, k)
    ensures Free(page, claimed, k) && k < |page.comments| && from <= page.comments[k].line < start
  {}

  lemma FirstOnLine(page: Page, claimed: set<nat>, line: nat) returns (k: nat)
    requires SomeFree(page, claimed, line)
    ensures k < |page.comments| && Free(page, claimed, k) && FirstFree(page, claimed, line, k)
    ensures page.comments[k].line == line
  {
    CommentOnIsFirstFree(page, claimed, line);
    k := page.CommentOn(claimed, line, 0).value;
  }

  lemma FreeIsNearest(page: Page, claimed: set<nat>, start: nat, k: nat)
    requires FirstFree(page, claimed, 1, k) && start > 1
    ensures NearestBelow(page, claimed, 1, start, k)
  {}

  lemma BelowHeader(page: Page, selected: seq<nat>, start: nat, k: nat)
    requires page.LineOf(k) < start
    ensures k in page.WithoutHeader(selected, start) <==>
            && k in selected
            && (selected != [] && page.LineOf(selected[0]) == 1 && page.FirstBlank(1, start).Some? ==>
                  BlankAbove(page, page.LineOf(k)))
  {
    hide Page.LineOf, Page.Blank, Filter;
    var blank := page.FirstBlank(1, start);
    if blank.Some? {
      FilterMembers(selected, page.IsBelow(blank.value));
      assert 1 <= blank.value && page.Blank(blank.value);
    }
  }

  lemma LeadingIsTaken(page: Page, selected: seq<nat>, start: nat, k: nat)
    ensures k in page.WithoutHeader(selected, start) ==> k in selected
  {
    hide Filter;
    var blank := page.FirstBlank(1, start);
    if blank.Some? {
      FilterMembers(selected, page.IsBelow(blank.value));
    }
  }

  /**
   * The leading comments of an owner, for either policy: the first free comment of every line above
   * the owner that the search reaches, except that a header keeps what no blank line stands above.
   */
  lemma LeadingIsExact(page: Page, claimed: set<nat>, owner: LineOwner, k: nat)
    requires owner.startLine > 0
    ensures var start := owner.startLine;
            k in page.Leading(claimed, owner) <==>
            && Free(page, claimed, k) && 0 < page.comments[k].line < start
            && FirstFree(page, claimed, page.comments[k].line, k)
            && Reached(page, claimed, start, page.comments[k].line)
            && (HasHeader(page, claimed, start) ==>
                  BlankAbove(page, page.comments[k].line))
  {
    hide Page.Leading, Searched, FirstFree, Reached, HasHeader, Page.WithoutHeader, BlankAbove, Page.FirstBlank;
    var start := owner.startLine;
    var taken := Searched(page, claimed, start);
    LeadingIsSearched(page, claimed, owner);
    SearchIsExact(page, claimed, owner, k);
    HeaderIsFirst(page, claimed, owner);
    LeadingIsTaken(page, taken, start, k);
    if k in taken {
      BelowHeader(page, taken, start, k);
    }
  }

  /** A comment on the first line of a source is a leading one only where no line above the owner is blank. */
  lemma HeaderStaysOut(page: Page, claimed: set<nat>, owner: LineOwner, k: nat)
    requires owner.startLine > 0 && k in page.Leading(claimed, owner) && page.LineOf(k) == 1
    ensures forall line: nat :: 1 <= line < owner.startLine ==> !page.Blank(line)
  {
    hide Page.Leading, Page.Blank;
    LeadingIsExact(page, claimed, owner, k);
  }

  /**
   * Under the policy for preceding owners, a comment that only blank lines and free comments separate
   * from the owner below is taken, unless it is part of a header.
   */
  lemma PrecedingOwnerTakes(page: Page, claimed: set<nat>, owner: LineOwner, k: nat)
    requires page.policy == PrecedingOwner && Free(page, claimed, k) && 0 < page.comments[k].line < owner.startLine
    requires FirstFree(page, claimed, page.comments[k].line, k)
    requires forall m: nat :: page.comments[k].line < m < owner.startLine ==>
               page.Blank(m) || SomeFree(page, claimed, m)
    ensures k !in page.Leading(claimed, owner) ==>
              && SomeFree(page, claimed, 1) && BlankAbove(page, owner.startLine)
              && forall m: nat :: 1 <= m < page.comments[k].line ==> !page.Blank(m) && SomeFree(page, claimed, m)
  {
    hide Page.Leading, Page.Blank, FirstFree, SomeFree;
    LeadingIsExact(page, claimed, owner, k);
    if k !in page.Leading(claimed, owner) {
      assert HasHeader(page, claimed, owner.startLine);
      forall m: nat | 1 < m < page.comments[k].line ensures page.Blank(m) || SomeFree(page, claimed, m) {
        assert Passes(page, claimed, owner.startLine, m);
      }
    }
  }

  // ----- what an owner takes from below

  /** The comment's indentation does not contradict the owner's. */
  predicate SameIndent(page: Page, ownerId: string, k: nat) {
    k < |page.comments| &&
    (page.comments[k].indent.None? || ownerId !in page.indents
     || page.comments[k].indent.value == page.indents[ownerId])
  }

  /** The first free comment of the line has the owner's indentation. */
  ghost predicate Continues(page: Page, claimed: set<nat>, ownerId: string, line: nat) {
    exists k: nat :: FirstFree(page, claimed, line, k) && SameIndent(page, ownerId, k)
  }

  /** A comment line that the downward search from `from` reaches. */
  ghost predicate ReachedDown(page: Page, claimed: set<nat>, ownerId: string, from: nat, k: nat) {
    && k < |page.comments|
    && FirstFree(page, claimed, page.comments[k].line, k)
    && !page.Blank(page.comments[k].line)
    && forall m: nat :: from <= m <= page.comments[k].line ==> page.Blank(m) || Continues(page, claimed, ownerId, m)
  }

  lemma ContinuingIsExact(page: Page, claimed: set<nat>, ownerId: string, line: nat)
    ensures var found := page.CommentOn(claimed, line, 0);
            found.Some? && page.IndentFits(found.value, ownerId) <==> Continues(page, claimed, ownerId, line)
  {
    var found := page.CommentOn(claimed, line, 0);
    CommentOnIsFirstFree(page, claimed, line);
    hide Page.CommentOn, FirstFree;
    if found.Some? && page.IndentFits(found.value, ownerId) {
      assert FirstFree(page, claimed, line, found.value) && SameIndent(page, ownerId, found.value);
    }
  }

  lemma {:induction false} ChainIsExact(page: Page, claimed: set<nat>, ownerId: string, line: nat, maxLine: nat, k: nat)
    requires line <= maxLine + 1 && (line <= maxLine ==> !page.Blank(line))
    ensures k in page.TrailingFrom(claimed, ownerId, line, maxLine) <==>
            && ReachedDown(page, claimed, ownerId, line, k) && line <= page.comments[k].line <= maxLine
    decreases maxLine + 1 - line
  {
    if line <= maxLine {
      var found := page.CommentOn(claimed, line, 0);
      TrailingStep(page, claimed, ownerId, line, maxLine);
      ContinuingIsExact(page, claimed, ownerId, line);
      CommentOnIsFirstFree(page, claimed, line);
      hide Page.CommentOn, Page.TrailingFrom, Page.Blank, Free, Page.IndentFits, Continues, Page.SkipBlank;
      if Continues(page, claimed, ownerId, line) {
        var next := page.SkipBlank(line + 1, maxLine);
        ChainIsExact(page, claimed, ownerId, next, maxLine, k);
        forall m: nat | line < m < next ensures page.Blank(m) {}
      } else {
        assert ReachedDown(page, claimed, ownerId, line, k) && line <= page.comments[k].line ==>
            page.Blank(line) || Continues(page, claimed, ownerId, line);
      }
    }
  }

  /**
   * The trailing comments of an owner: none for following owners; otherwise the first free comment of
   * every line that only blank lines and comments of the owner's indentation separate from the owner,
   * up to the next owner, as long as the line below the owner is not blank.
   */
  lemma TrailingIsExact(page: Page, claimed: set<nat>, owner: LineOwner, next: Option<LineOwner>, k: nat)
    requires next.Some? ==> next.value.startLine > 0
    ensures k in page.Trailing(claimed, owner, next) <==>
            && page.policy == PrecedingOwner
            && !page.Blank(owner.endLine + 1)
            && ReachedDown(page, claimed, owner.id, owner.endLine + 1, k)
            && owner.endLine < page.comments[k].line
            && (if next.Some? then page.comments[k].line < next.value.startLine
                else page.comments[k].line <= |page.lines|)
  {
    hide Page.Blank, Page.TrailingFrom, ReachedDown;
    if page.policy == PrecedingOwner && owner.endLine + 1 <= page.MaxLine(next) && !page.Blank(owner.endLine + 1) {
      ChainIsExact(page, claimed, owner.id, owner.endLine + 1, page.MaxLine(next), k);
    }
  }
}
