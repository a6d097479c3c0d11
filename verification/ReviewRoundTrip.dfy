/** Printing conflicts and reviewing the text gives back the printed sides. */
module ReviewRoundTrip {
  import opened Wrappers
  import opened Sequences
  import opened Bytes
  import opened ConflictReview

  // ----- blocks of raw lines

  /** A conflict as the lines it is printed with; the base side comes with its marker line. */
  datatype RawConflict = RawConflict(
    opening: ByteString,
    ours: seq<ByteString>,
    base: Option<(ByteString, seq<ByteString>)>,
    separator: ByteString,
    theirs: seq<ByteString>,
    closing: ByteString)

  datatype Block = Plain(lines: seq<ByteString>) | Conflicted(conflict: RawConflict)

  function BaseLines(conflict: RawConflict): seq<ByteString> {
    if conflict.base.Some? then [conflict.base.value.0] + conflict.base.value.1 else []
  }

  function ConflictLines(c: RawConflict): seq<ByteString> {
    [c.opening] + c.ours + BaseLines(c) + [c.separator] + c.theirs + [c.closing]
  }

  function BlockLines(block: Block): seq<ByteString> {
    match block
    case Plain(lines) => lines
    case Conflicted(c) => ConflictLines(c)
  }

  function AllLines(blocks: seq<Block>): seq<ByteString> {
    if blocks == [] then [] else BlockLines(blocks[0]) + AllLines(blocks[1..])
  }

  function OwnConflict(block: Block): seq<RawConflict> {
    if block.Conflicted? then [block.conflict] else []
  }

  function Conflicts(blocks: seq<Block>): seq<RawConflict> {
    if blocks == [] then [] else OwnConflict(blocks[0]) + Conflicts(blocks[1..])
  }

  /** No line reads as a marker; the first one is read as the first of the source if `first` says so. */
  predicate ReadPlain(lines: seq<ByteString>, first: bool, size: nat)
    requires size > 0
  {
    forall k :: 0 <= k < |lines| ==> LineKind(lines[k], first && k == 0, size) == None
  }

  predicate SidesReadPlain(c: RawConflict, size: nat)
    requires size > 0
  {
    && ReadPlain(c.ours, false, size)
    && (c.base.Some? ==> ReadPlain(c.base.value.1, false, size))
    && ReadPlain(c.theirs, false, size)
  }

  predicate MarksRead(c: RawConflict, first: bool, size: nat)
    requires size > 0
  {
    && LineKind(c.opening, first, size) == Some(Opening)
    && (c.base.Some? ==> LineKind(c.base.value.0, false, size) == Some(BaseMark))
    && LineKind(c.separator, false, size) == Some(Separator)
    && LineKind(c.closing, false, size) == Some(Closing)
  }

  predicate BlockReads(block: Block, first: bool, size: nat)
    requires size > 0
  {
    match block
    case Plain(lines) => ReadPlain(lines, first, size)
    case Conflicted(c) => MarksRead(c, first, size) && SidesReadPlain(c, size)
  }

  /** Every line reads as what the blocks say it is. */
  predicate BlocksRead(blocks: seq<Block>, first: bool, size: nat)
    requires size > 0
  {
    blocks == [] ||
    (BlockReads(blocks[0], first, size) && BlocksRead(blocks[1..], first && BlockLines(blocks[0]) == [], size))
  }

  // ----- running the state machine over blocks

  lemma {:induction false} SeenAppend(a: seq<ByteString>, b: seq<ByteString>, offset: nat, number: nat, size: nat)
    requires size > 0
    ensures SeenLines(a + b, offset, number, size) ==
            SeenLines(a, offset, number, size) + SeenLines(b, offset + |Flatten(a)|, number + |a|, size)
  {
    hide SeenLine, SeenLines, Flatten;
    if a == [] {
      assert a + b == b;
      FlattenNone(a);
      NothingSeen(offset, number, size);
    } else {
      var head, rest := a[0], a[1..];
      assert a == [head] + rest && a + b == [head] + (rest + b);
      SeenCons(head, rest, offset, number, size);
      SeenCons(head, rest + b, offset, number, size);
      FlattenAppend([head], rest);
      FlattenOne(head);
      SeenAppend(rest, b, offset + |head|, number + 1, size);
    }
  }

  lemma NothingSeen(offset: nat, number: nat, size: nat)
    requires size > 0
    ensures SeenLines([], offset, number, size) == []
  {}

  lemma SeenCons(head: ByteString, rest: seq<ByteString>, offset: nat, number: nat, size: nat)
    requires size > 0
    ensures SeenLines([head] + rest, offset, number, size) ==
            [SeenLine(head, offset, number, size)] + SeenLines(rest, offset + |head|, number + 1, size)
  {
    hide SeenLine;
    assert ([head] + rest)[1..] == rest;
  }

  lemma {:induction false} RunAppend(state: State, a: seq<Seen>, b: seq<Seen>)
    ensures Run(state, a + b) ==
            if Run(state, a).Err? then Run(state, a) else Run(Run(state, a).value, b)
    decreases |a|
  {
    if a == [] {
      assert a + b == b;
    } else {
      assert (a + b)[0] == a[0] && (a + b)[1..] == a[1..] + b;
      if Step(state, a[0]).Ok? {
        RunAppend(Step(state, a[0]).value, a[1..], b);
      }
    }
  }

  /** Plain lines leave the state alone. */
  lemma {:induction false} RunPlain(state: State, lines: seq<ByteString>, offset: nat, number: nat, size: nat)
    requires size > 0 && ReadPlain(lines, offset == 0, size)
    requires forall k :: 0 <= k < |lines| ==> lines[k] != []
    ensures Run(state, SeenLines(lines, offset, number, size)) == Ok(state)
    decreases |lines|
  {
    if lines != [] {
      assert lines[0] != [];
      forall k | 0 <= k < |lines[1..]| ensures LineKind(lines[1..][k], false, size) == None && lines[1..][k] != [] {
        assert lines[1..][k] == lines[k + 1];
      }
      assert SeenLines(lines, offset, number, size)[1..] ==
             SeenLines(lines[1..], offset + |lines[0]|, number + 1, size);
      RunPlain(state, lines[1..], offset + |lines[0]|, number + 1, size);
    }
  }

  /** One marker line does one step. */
  lemma RunMark(state: State, line: ByteString, offset: nat, number: nat, size: nat)
    requires size > 0
    ensures Run(state, SeenLines([line], offset, number, size)) == Step(state, SeenLine(line, offset, number, size))
  {
    hide LineKind, BomLength;
    assert SeenLines([line], offset, number, size)[1..] == [];
  }

  predicate Nonempty(lines: seq<ByteString>) {
    forall k :: 0 <= k < |lines| ==> lines[k] != []
  }

  /** Running on from lines already run. */
  lemma RunMore(state: State, a: seq<ByteString>, b: seq<ByteString>, offset: nat, number: nat, size: nat)
    requires size > 0 && Run(state, SeenLines(a, offset, number, size)).Ok?
    ensures Run(state, SeenLines(a + b, offset, number, size)) ==
            Run(Run(state, SeenLines(a, offset, number, size)).value,
                SeenLines(b, offset + |Flatten(a)|, number + |a|, size))
  {
    hide LineKind, BomLength;
    SeenAppend(a, b, offset, number, size);
    RunAppend(state, SeenLines(a, offset, number, size), SeenLines(b, offset + |Flatten(a)|, number + |a|, size));
  }

  lemma RunMorePlain(state: State, a: seq<ByteString>, b: seq<ByteString>, offset: nat, number: nat, size: nat)
    requires size > 0 && Run(state, SeenLines(a, offset, number, size)).Ok? && a != [] && Nonempty(a) && Nonempty(b)
    requires ReadPlain(b, false, size)
    ensures Run(state, SeenLines(a + b, offset, number, size)) == Run(state, SeenLines(a, offset, number, size))
  {
    RunMore(state, a, b, offset, number, size);
    assert a == [a[0]] + a[1..] && |Flatten(a)| >= |a[0]| > 0;
    RunPlain(Run(state, SeenLines(a, offset, number, size)).value, b, offset + |Flatten(a)|, number + |a|, size);
  }

  lemma RunMoreMark(state: State, a: seq<ByteString>, line: ByteString, offset: nat, number: nat, size: nat)
    requires size > 0 && Run(state, SeenLines(a, offset, number, size)).Ok?
    ensures Run(state, SeenLines(a + [line], offset, number, size)) ==
            Step(Run(state, SeenLines(a, offset, number, size)).value,
                 SeenLine(line, offset + |Flatten(a)|, number + |a|, size))
  {
    RunMore(state, a, [line], offset, number, size);
    RunMark(Run(state, SeenLines(a, offset, number, size)).value, line, offset + |Flatten(a)|, number + |a|, size);
  }

  /** The sides of a region slice back to the printed sides. */
  predicate GivesBack(bytes: ByteString, region: Region, c: RawConflict) {
    && Get(bytes, region.ours) == Some(Flatten(c.ours))
    && Get(bytes, region.theirs) == Some(Flatten(c.theirs))
    && (region.base.Some? <==> c.base.Some?)
    && (c.base.Some? ==> Get(bytes, region.base.value) == Some(Flatten(c.base.value.1)))
  }

  // ----- the state after each part of a printed conflict

  function ThroughOurs(c: RawConflict): seq<ByteString> {
    [c.opening] + c.ours
  }

  function ThroughBase(c: RawConflict): seq<ByteString> {
    ThroughOurs(c) + BaseLines(c)
  }

  function ThroughTheirs(c: RawConflict): seq<ByteString> {
    ThroughBase(c) + [c.separator] + c.theirs
  }

  function After(offset: nat, lines: seq<ByteString>): nat {
    offset + |Flatten(lines)|
  }

  function BegunOpen(c: RawConflict, offset: nat, number: nat): Open {
    Open(offset + BomLength(c.opening, offset == 0), number, offset + |c.opening|, None, None)
  }

  function BasedOpen(c: RawConflict, offset: nat, number: nat): Open {
    var mark := After(offset, ThroughOurs(c));
    BegunOpen(c, offset, number).(base := if c.base.Some? then Some((mark, mark + |c.base.value.0|)) else None)
  }

  function SeparatedOpen(c: RawConflict, offset: nat, number: nat): Open {
    var mark := After(offset, ThroughBase(c));
    BasedOpen(c, offset, number).(separator := Some((mark, mark + |c.separator|, number + |ThroughBase(c)|)))
  }

  /** The region that a printed conflict should be reported as. */
  function ExpectedRegion(c: RawConflict, offset: nat, number: nat, index: nat, size: nat): Region
    requires size > 0
  {
    Completed(SeparatedOpen(c, offset, number), index,
              SeenLine(c.closing, After(offset, ThroughTheirs(c)), number + |ThroughTheirs(c)|, size))
  }

  ghost predicate Printable(c: RawConflict, offset: nat, size: nat)
    requires size > 0
  {
    MarksRead(c, offset == 0, size) && SidesReadPlain(c, size) && Nonempty(ConflictLines(c))
  }

  lemma PartsAreNonempty(c: RawConflict)
    requires Nonempty(ConflictLines(c))
    ensures Nonempty([c.opening]) && Nonempty(c.ours) && Nonempty(ThroughOurs(c)) && Nonempty(c.theirs)
    ensures Nonempty(ThroughBase(c)) && Nonempty(ThroughBase(c) + [c.separator]) && Nonempty(ThroughTheirs(c))
    ensures c.base.Some? ==> Nonempty(c.base.value.1) && Nonempty(ThroughOurs(c) + [c.base.value.0])
  {
    var all := ConflictLines(c);
    assert all == ThroughTheirs(c) + [c.closing];
    assert forall k :: 0 <= k < |ThroughTheirs(c)| ==> ThroughTheirs(c)[k] == all[k];
    assert forall k :: 0 <= k < |ThroughBase(c) + [c.separator]| ==>
        (ThroughBase(c) + [c.separator])[k] == ThroughTheirs(c)[k];
    assert forall k :: 0 <= k < |ThroughBase(c)| ==> ThroughBase(c)[k] == ThroughTheirs(c)[k];
    assert forall k :: 0 <= k < |ThroughOurs(c)| ==> ThroughOurs(c)[k] == ThroughBase(c)[k];
    assert forall k :: 0 <= k < |c.ours| ==> c.ours[k] == ThroughOurs(c)[k + 1];
    assert forall k :: 0 <= k < |c.theirs| ==> c.theirs[k] == ThroughTheirs(c)[|ThroughBase(c)| + 1 + k];
    assert forall k :: 0 <= k < |BaseLines(c)| ==> BaseLines(c)[k] == ThroughBase(c)[|ThroughOurs(c)| + k];
    assert c.opening == ThroughOurs(c)[0];
    if c.base.Some? {
      assert c.base.value.0 == BaseLines(c)[0];
      assert forall k :: 0 <= k < |c.base.value.1| ==> c.base.value.1[k] == BaseLines(c)[k + 1];
    }
  }

  lemma FlattenIsPositive(lines: seq<ByteString>)
    requires lines != [] && Nonempty(lines)
    ensures |Flatten(lines)| > 0
  {
    assert lines[0] != [];
  }

  lemma RunOurs(state: State, c: RawConflict, offset: nat, number: nat, size: nat)
    requires size > 0 && state.open.None? && |state.regions| < MAX_REVIEW_REGIONS && Printable(c, offset, size)
    ensures Run(state, SeenLines(ThroughOurs(c), offset, number, size)) ==
            Ok(State(Some(BegunOpen(c, offset, number)), state.regions))
  {
    hide LineKind, BomLength, Run, SeenLines, Flatten;
    PartsAreNonempty(c);
    RunMark(state, c.opening, offset, number, size);
    RunMorePlain(state, [c.opening], c.ours, offset, number, size);
  }

  lemma RunBase(state: State, c: RawConflict, offset: nat, number: nat, size: nat)
    requires size > 0 && state.open.None? && |state.regions| < MAX_REVIEW_REGIONS && Printable(c, offset, size)
    ensures Run(state, SeenLines(ThroughBase(c), offset, number, size)) ==
            Ok(State(Some(BasedOpen(c, offset, number)), state.regions))
  {
    hide LineKind, BomLength, Run, SeenLines, Flatten, Nonempty;
    RunOurs(state, c, offset, number, size);
    var lines := ThroughOurs(c);
    if c.base.Some? {
      PartsAreNonempty(c);
      FlattenIsPositive(lines);
      RunMoreMark(state, lines, c.base.value.0, offset, number, size);
      RunMorePlain(state, lines + [c.base.value.0], c.base.value.1, offset, number, size);
      assert lines + [c.base.value.0] + c.base.value.1 == ThroughBase(c);
    } else {
      assert lines + [] == lines;
    }
  }

  lemma RunTheirs(state: State, c: RawConflict, offset: nat, number: nat, size: nat)
    requires size > 0 && state.open.None? && |state.regions| < MAX_REVIEW_REGIONS && Printable(c, offset, size)
    ensures Run(state, SeenLines(ThroughTheirs(c), offset, number, size)) ==
            Ok(State(Some(SeparatedOpen(c, offset, number)), state.regions))
  {
    hide LineKind, BomLength, Run, SeenLines, Flatten;
    RunBase(state, c, offset, number, size);
    PartsAreNonempty(c);
    FlattenIsPositive(ThroughBase(c));
    RunMoreMark(state, ThroughBase(c), c.separator, offset, number, size);
    RunMorePlain(state, ThroughBase(c) + [c.separator], c.theirs, offset, number, size);
  }

  /** A printed conflict adds exactly its expected region. */
  lemma RunConflict(state: State, c: RawConflict, offset: nat, number: nat, size: nat)
    requires size > 0 && state.open.None? && |state.regions| < MAX_REVIEW_REGIONS && Printable(c, offset, size)
    ensures Run(state, SeenLines(ConflictLines(c), offset, number, size)) ==
            Ok(State(None, state.regions + [ExpectedRegion(c, offset, number, |state.regions|, size)]))
  {
    hide LineKind, BomLength, Run, SeenLines, Flatten;
    RunTheirs(state, c, offset, number, size);
    PartsAreNonempty(c);
    FlattenIsPositive(ThroughTheirs(c));
    RunMoreMark(state, ThroughTheirs(c), c.closing, offset, number, size);
    assert ThroughTheirs(c) + [c.closing] == ConflictLines(c);
  }

  // ----- the sides of an expected region

  /** Some lines of a longer text, cut out by their offsets. */
  lemma LinesSlice(before: ByteString, a: seq<ByteString>, side: seq<ByteString>, b: seq<ByteString>, after: ByteString)
    ensures Get(before + Flatten(a + side + b) + after,
                ByteRange(|before| + |Flatten(a)|, |before| + |Flatten(a)| + |Flatten(side)|)) == Some(Flatten(side))
  {
    hide Flatten;
    FlattenAppend(a + side, b);
    FlattenAppend(a, side);
    var bytes, start := before + Flatten(a + side + b) + after, before + Flatten(a);
    assert bytes == start + Flatten(side) + (Flatten(b) + after);
    assert bytes[|start|..|start| + |Flatten(side)|] == Flatten(side);
  }

  lemma ExpectedGivesBack(c: RawConflict, before: ByteString, after: ByteString, number: nat, index: nat, size: nat)
    requires size > 0
    ensures GivesBack(before + Flatten(ConflictLines(c)) + after, ExpectedRegion(c, |before|, number, index, size), c)
  {
    hide Flatten, BomLength, LineKind;
    var all := ConflictLines(c);
    var rest := BaseLines(c) + [c.separator] + c.theirs + [c.closing];
    FlattenOne(c.opening);
    FlattenAppend([c.opening], c.ours);
    LinesSlice(before, [c.opening], c.ours, rest, after);
    assert all == [c.opening] + c.ours + rest;
    if c.base.Some? {
      var mark, lines := c.base.value.0, c.base.value.1;
      FlattenSnoc(ThroughOurs(c), mark);
      FlattenAppend(ThroughOurs(c) + [mark], lines);
      LinesSlice(before, ThroughOurs(c) + [mark], lines, [c.separator] + c.theirs + [c.closing], after);
      assert all == ThroughOurs(c) + [mark] + lines + ([c.separator] + c.theirs + [c.closing]);
      assert ThroughBase(c) == ThroughOurs(c) + [mark] + lines;
    } else {
      assert ThroughBase(c) == ThroughOurs(c);
    }
    FlattenSnoc(ThroughBase(c), c.separator);
    FlattenAppend(ThroughBase(c) + [c.separator], c.theirs);
    LinesSlice(before, ThroughBase(c) + [c.separator], c.theirs, [c.closing], after);
    assert all == ThroughBase(c) + [c.separator] + c.theirs + [c.closing];
  }

  // ----- whole documents of blocks

  function OwnRegion(block: Block, offset: nat, number: nat, index: nat, size: nat): (regions: seq<Region>)
    requires size > 0
    ensures |regions| == |OwnConflict(block)|
  {
    if block.Plain? then [] else [ExpectedRegion(block.conflict, offset, number, index, size)]
  }

  function ExpectedRegions(blocks: seq<Block>, offset: nat, number: nat, index: nat, size: nat): (regions: seq<Region>)
    requires size > 0
    ensures |regions| == |Conflicts(blocks)|
  {
    if blocks == [] then []
    else
      var lines, own := BlockLines(blocks[0]), OwnRegion(blocks[0], offset, number, index, size);
      own + ExpectedRegions(blocks[1..], offset + |Flatten(lines)|, number + |lines|, index + |own|, size)
  }

  lemma NonemptySplit(a: seq<ByteString>, b: seq<ByteString>)
    requires Nonempty(a + b)
    ensures Nonempty(a) && Nonempty(b)
  {
    assert forall k :: 0 <= k < |a| ==> a[k] == (a + b)[k];
    assert forall k :: 0 <= k < |b| ==> b[k] == (a + b)[|a| + k];
  }

  lemma BlockRuns(state: State, block: Block, offset: nat, number: nat, size: nat)
    requires size > 0 && state.open.None? && |state.regions| + |OwnConflict(block)| <= MAX_REVIEW_REGIONS
    requires BlockReads(block, offset == 0, size) && Nonempty(BlockLines(block))
    ensures Run(state, SeenLines(BlockLines(block), offset, number, size)) ==
            Ok(State(None, state.regions + OwnRegion(block, offset, number, |state.regions|, size)))
  {
    hide LineKind, BomLength, Run, SeenLines, ExpectedRegion;
    match block {
      case Plain(lines) =>
        RunPlain(state, lines, offset, number, size);
        assert state.regions + [] == state.regions;
      case Conflicted(c) =>
        RunConflict(state, c, offset, number, size);
    }
  }

  lemma {:induction false} BlocksRun(state: State, blocks: seq<Block>, offset: nat, number: nat, size: nat)
    requires size > 0 && state.open.None? && |state.regions| + |Conflicts(blocks)| <= MAX_REVIEW_REGIONS
    requires BlocksRead(blocks, offset == 0, size) && Nonempty(AllLines(blocks))
    ensures Run(state, SeenLines(AllLines(blocks), offset, number, size)) ==
            Ok(State(None, state.regions + ExpectedRegions(blocks, offset, number, |state.regions|, size)))
    decreases |blocks|
  {
    hide Run, SeenLines, OwnRegion, OwnConflict, BlockReads, BlockLines, Flatten, Nonempty;
    if blocks == [] {
      RunNothing(state, offset, number, size);
      assert state.regions + [] == state.regions;
    } else {
      var lines, own := BlockLines(blocks[0]), OwnRegion(blocks[0], offset, number, |state.regions|, size);
      FirstBlockRuns(state, blocks, offset, number, size);
      BlocksRun(State(None, state.regions + own), blocks[1..], offset + |Flatten(lines)|, number + |lines|, size);
      Associative(state.regions, own,
                  ExpectedRegions(blocks[1..], offset + |Flatten(lines)|, number + |lines|, |state.regions + own|,
                                  size));
    }
  }

  lemma RunNothing(state: State, offset: nat, number: nat, size: nat)
    requires size > 0
    ensures Run(state, SeenLines([], offset, number, size)) == Ok(state)
  {}

  lemma FirstBlockRuns(state: State, blocks: seq<Block>, offset: nat, number: nat, size: nat)
    requires blocks != [] && size > 0 && state.open.None? && |state.regions| + |Conflicts(blocks)| <= MAX_REVIEW_REGIONS
    requires BlocksRead(blocks, offset == 0, size) && Nonempty(AllLines(blocks))
    ensures var lines, own := BlockLines(blocks[0]), OwnRegion(blocks[0], offset, number, |state.regions|, size);
            && Nonempty(AllLines(blocks[1..]))
            && BlocksRead(blocks[1..], offset + |Flatten(lines)| == 0, size)
            && Run(state, SeenLines(AllLines(blocks), offset, number, size)) ==
               Run(State(None, state.regions + own),
                   SeenLines(AllLines(blocks[1..]), offset + |Flatten(lines)|, number + |lines|, size))
  {
    hide LineKind, BomLength, Run, SeenLines, OwnRegion, OwnConflict, BlockReads, BlockLines, Flatten, Nonempty;
    var lines, rest := BlockLines(blocks[0]), AllLines(blocks[1..]);
    NonemptySplit(lines, rest);
    BlockRuns(state, blocks[0], offset, number, size);
    RunMore(state, lines, rest, offset, number, size);
    FlattenIsEmpty(lines);
  }

  lemma FlattenIsEmpty(lines: seq<ByteString>)
    requires Nonempty(lines)
    ensures lines == [] <==> |Flatten(lines)| == 0
  {
    if lines != [] {
      FlattenIsPositive(lines);
    }
  }

  lemma {:induction false} BlocksGiveBack(blocks: seq<Block>, before: ByteString, after: ByteString, number: nat,
                                          index: nat, size: nat, k: nat)
    requires size > 0 && k < |Conflicts(blocks)|
    ensures GivesBack(before + Flatten(AllLines(blocks)) + after,
                      ExpectedRegions(blocks, |before|, number, index, size)[k], Conflicts(blocks)[k])
    decreases |blocks|
  {
    hide GivesBack, ExpectedRegion, Flatten, ConflictLines, BlockLines;
    var lines, rest := BlockLines(blocks[0]), AllLines(blocks[1..]);
    var text, skipped := Flatten(lines), |OwnConflict(blocks[0])|;
    FlattenAppend(lines, rest);
    if k < skipped {
      OwnGivesBack(blocks[0], before, Flatten(rest) + after, number, index, size);
      Regroup(before, text, Flatten(rest), after);
    } else {
      BlocksGiveBack(blocks[1..], before + text, after, number + |lines|, index + skipped, size, k - skipped);
      Regroup(before, text, Flatten(rest), after);
    }
  }

  lemma OwnGivesBack(block: Block, before: ByteString, after: ByteString, number: nat, index: nat, size: nat)
    requires size > 0 && block.Conflicted?
    ensures GivesBack(before + Flatten(BlockLines(block)) + after, OwnRegion(block, |before|, number, index, size)[0],
                      block.conflict)
  {
    ExpectedGivesBack(block.conflict, before, after, number, index, size);
  }

  lemma Regroup(a: ByteString, b: ByteString, c: ByteString, d: ByteString)
    ensures a + (b + c) + d == a + b + (c + d) == (a + b) + c + d
  {}

  /** A review of the text of blocks that read as they should reports exactly their conflicts, side by side. */
  lemma BlocksRoundTrip(blocks: seq<Block>, size: nat)
    requires 1 <= size <= MAX_MARKER_SIZE && BlocksRead(blocks, true, size)
    requires AreLines(AllLines(blocks), NEWLINE) && |Conflicts(blocks)| <= MAX_REVIEW_REGIONS
    requires var text := Flatten(AllLines(blocks)); |text| <= MAX_REVIEW_BYTES && ValidUtf8(text)
    ensures var text := Flatten(AllLines(blocks));
            && Review(text, size).Ok?
            && |Review(text, size).value| == |Conflicts(blocks)|
            && forall k :: 0 <= k < |Conflicts(blocks)| ==>
                 GivesBack(text, Review(text, size).value[k], Conflicts(blocks)[k])
  {
    hide LineKind, ValidUtf8, GivesBack, ExpectedRegions, AllLines, Conflicts, BlocksRead, SeenLines, SplitInclusive,
      Flatten;
    var text := Flatten(AllLines(blocks));
    SplitIsUnique(AllLines(blocks), NEWLINE);
    assert Nonempty(AllLines(blocks)) by {
      assert forall k :: 0 <= k < |AllLines(blocks)| ==> IsLine(AllLines(blocks)[k], NEWLINE);
    }
    BlocksRun(START, blocks, 0, 1, size);
    assert START.regions + ExpectedRegions(blocks, 0, 1, 0, size) == ExpectedRegions(blocks, 0, 1, 0, size);
    forall k | 0 <= k < |Conflicts(blocks)| ensures GivesBack(text, Review(text, size).value[k], Conflicts(blocks)[k]) {
      BlocksGiveBack(blocks, [], [], 1, 0, size, k);
      assert [] + text + [] == text;
    }
  }

  // ----- the printer

  /** How a line ends; only the last line of a text may have no end. */
  datatype Eol = Lf | CrLf | NoEol

  function EolBytes(eol: Eol): ByteString {
    match eol
    case Lf => [NEWLINE]
    case CrLf => [CARRIAGE_RETURN, NEWLINE]
    case NoEol => []
  }

  datatype TextLine = TextLine(text: ByteString, eol: Eol)

  /** A marker line's label: nothing, or a blank and a text. */
  datatype Label = NoLabel | Label(blank: Byte, text: ByteString)

  datatype MarkLine = MarkLine(tag: Label, eol: Eol)

  datatype ConflictText = ConflictText(
    opening: MarkLine,
    ours: seq<TextLine>,
    base: Option<(MarkLine, seq<TextLine>)>,
    separatorEol: Eol,
    theirs: seq<TextLine>,
    closing: MarkLine)

  datatype Passage = Prose(lines: seq<TextLine>) | Clash(conflict: ConflictText)

  function PrintLine(line: TextLine): ByteString {
    line.text + EolBytes(line.eol)
  }

  function PrintLines(lines: seq<TextLine>): seq<ByteString> {
    Map(PrintLine, lines)
  }

  function LabelBytes(tag: Label): ByteString {
    match tag
    case NoLabel => []
    case Label(blank, text) => [blank] + text
  }

  function MarkerBytes(kind: Kind, size: nat): ByteString {
    seq(size, _ => MarkerByte(kind))
  }

  function PrintMark(kind: Kind, mark: MarkLine, size: nat): ByteString {
    MarkerBytes(kind, size) + (LabelBytes(mark.tag) + EolBytes(mark.eol))
  }

  function PrintConflict(c: ConflictText, size: nat): RawConflict {
    RawConflict(
      PrintMark(Opening, c.opening, size),
      PrintLines(c.ours),
      if c.base.Some? then Some((PrintMark(BaseMark, c.base.value.0, size), PrintLines(c.base.value.1))) else None,
      PrintMark(Separator, MarkLine(NoLabel, c.separatorEol), size),
      PrintLines(c.theirs),
      PrintMark(Closing, c.closing, size))
  }

  function PrintBlocks(passages: seq<Passage>, size: nat): seq<Block> {
    if passages == [] then []
    else
      [match passages[0]
       case Prose(lines) => Plain(PrintLines(lines))
       case Clash(c) => Conflicted(PrintConflict(c, size))]
      + PrintBlocks(passages[1..], size)
  }

  /** A byte-order mark in front of the first line. */
  function WithBom(blocks: seq<Block>): seq<Block> {
    if blocks == [] then [Plain([BOM])]
    else
      match blocks[0]
      case Plain(lines) =>
        if lines == [] then [blocks[0]] + WithBom(blocks[1..])
        else [Plain([BOM + lines[0]] + lines[1..])] + blocks[1..]
      case Conflicted(c) => [Conflicted(c.(opening := BOM + c.opening))] + blocks[1..]
  }

  function Document(passages: seq<Passage>, bom: bool, size: nat): seq<Block> {
    if bom then WithBom(PrintBlocks(passages, size)) else PrintBlocks(passages, size)
  }

  function Print(passages: seq<Passage>, bom: bool, size: nat): ByteString {
    Flatten(AllLines(Document(passages, bom, size)))
  }

  predicate GoodLabel(mark: MarkLine) {
    mark.tag.Label? ==> mark.tag.blank == SPACE || mark.tag.blank == TAB
  }

  predicate GoodLabels(passages: seq<Passage>) {
    forall k :: 0 <= k < |passages| && passages[k].Clash? ==>
      var c := passages[k].conflict;
      GoodLabel(c.opening) && GoodLabel(c.closing) && (c.base.Some? ==> GoodLabel(c.base.value.0))
  }

  /** No content line reads as a marker. */
  predicate ContentReadsPlain(blocks: seq<Block>, first: bool, size: nat)
    requires size > 0
  {
    blocks == [] ||
    (&& (match blocks[0]
         case Plain(lines) => ReadPlain(lines, first, size)
         case Conflicted(c) => SidesReadPlain(c, size))
     && ContentReadsPlain(blocks[1..], first && BlockLines(blocks[0]) == [], size))
  }

  // ----- printed markers read as markers

  lemma ContentOfTail(head: ByteString, tail: ByteString)
    requires head != [] && head[|head| - 1] != NEWLINE && head[|head| - 1] != CARRIAGE_RETURN
    ensures Content(head + tail) == head + Content(tail)
  {
    var line := StripSuffix(tail, NEWLINE);
    assert StripSuffix(head + tail, NEWLINE) == head + line by {
      if tail == [] {
        assert head + tail == head;
      } else if tail[|tail| - 1] == NEWLINE {
        assert (head + tail)[..|head + tail| - 1] == head + tail[..|tail| - 1];
      }
    }
    if line == [] {
      assert head + line == head;
    } else if line[|line| - 1] == CARRIAGE_RETURN {
      assert (head + line)[..|head + line| - 1] == head + line[..|line| - 1];
    }
  }

  lemma TailContent(mark: MarkLine)
    requires GoodLabel(mark)
    ensures var content := Content(LabelBytes(mark.tag) + EolBytes(mark.eol));
            if mark.tag.NoLabel? then content == [] else content != [] && content[0] == mark.tag.blank
  {
    match mark.tag {
      case NoLabel =>
        assert LabelBytes(mark.tag) + EolBytes(mark.eol) == EolBytes(mark.eol);
      case Label(blank, text) =>
        ContentOfTail([blank], text + EolBytes(mark.eol));
        assert [blank] + text + EolBytes(mark.eol) == [blank] + (text + EolBytes(mark.eol));
    }
  }

  /** Marker bytes and the content of a good label are a marker. */
  lemma MarkerContent(kind: Kind, mark: MarkLine, size: nat)
    requires size > 0 && GoodLabel(mark) && (kind == Separator ==> mark.tag.NoLabel?)
    ensures var content := MarkerBytes(kind, size) + Content(LabelBytes(mark.tag) + EolBytes(mark.eol));
            Marker(content, size) == Some(kind) && content[0] == MarkerByte(kind)
  {
    hide Content;
    TailContent(mark);
    var tail := Content(LabelBytes(mark.tag) + EolBytes(mark.eol));
    var content := MarkerBytes(kind, size) + tail;
    assert KindOf(content[0]) == Some(kind);
    assert forall i :: 0 <= i < size ==> content[i] == content[0];
    if tail != [] {
      assert content[size] == tail[0];
    } else {
      assert |content| == size;
    }
  }

  lemma HeadContent(prefix: ByteString, kind: Kind, mark: MarkLine, size: nat)
    requires size > 0
    ensures var tail := LabelBytes(mark.tag) + EolBytes(mark.eol);
            Content(prefix + PrintMark(kind, mark, size)) == prefix + (MarkerBytes(kind, size) + Content(tail))
  {
    hide Content, LabelBytes, EolBytes;
    var head, tail := prefix + MarkerBytes(kind, size), LabelBytes(mark.tag) + EolBytes(mark.eol);
    assert head[|head| - 1] == MarkerByte(kind);
    ContentOfTail(head, tail);
    assert head + tail == prefix + PrintMark(kind, mark, size);
    assert head + Content(tail) == prefix + (MarkerBytes(kind, size) + Content(tail));
  }

  /** A printed marker line reads as its marker, with or without a byte-order mark at the start of the source. */
  lemma PrintedMarkReads(kind: Kind, mark: MarkLine, size: nat)
    requires size > 0 && GoodLabel(mark) && (kind == Separator ==> mark.tag.NoLabel?)
    ensures LineKind(PrintMark(kind, mark, size), false, size) == Some(kind)
    ensures LineKind(PrintMark(kind, mark, size), true, size) == Some(kind)
    ensures LineKind(BOM + PrintMark(kind, mark, size), true, size) == Some(kind)
  {
    hide Marker, MarkerBytes, Content, PrintMark;
    MarkerContent(kind, mark, size);
    HeadContent([], kind, mark, size);
    HeadContent(BOM, kind, mark, size);
    var content := MarkerBytes(kind, size) + Content(LabelBytes(mark.tag) + EolBytes(mark.eol));
    assert [] + PrintMark(kind, mark, size) == PrintMark(kind, mark, size) && [] + content == content;
    assert !(BOM <= content) && content[0..] == content;
    assert BOM <= BOM + content && (BOM + content)[|BOM|..] == content;
  }

  /** A label that a marker of this kind may carry. */
  predicate LabelFits(kind: Kind, tag: Label) {
    match tag
    case NoLabel => true
    case Label(blank, _) => kind != Separator && (blank == SPACE || blank == TAB)
  }

  /** The bytes that may stand in front of a marker: a byte-order mark at the start of the source. */
  predicate MayPrecede(prefix: ByteString, first: bool) {
    prefix == [] || (first && prefix == [0xEF, 0xBB, 0xBF])
  }

  /** The ends that a marker line may have. */
  predicate IsLineEnd(end: ByteString) {
    end == [] || end == [10] || end == [13, 10] || end == [13]
  }

  /** The line is the marker bytes of the kind, a fitting label, and a line end. */
  ghost predicate IsMarkerLine(raw: ByteString, first: bool, kind: Kind, size: nat) {
    exists prefix: ByteString, tag: Label, end: ByteString ::
      MayPrecede(prefix, first) && LabelFits(kind, tag) && IsLineEnd(end)
      && raw == prefix + MarkerBytes(kind, size) + LabelBytes(tag) + end
  }

  /** Stripping takes a line end off, and nothing else. */
  lemma ContentAndEnd(raw: ByteString) returns (end: ByteString)
    ensures IsLineEnd(end) && raw == Content(raw) + end
  {
    var line := StripSuffix(raw, NEWLINE);
    end := raw[|Content(raw)|..];
    assert raw[..|line|] == line && line[..|Content(raw)|] == Content(raw);
    assert raw[..|Content(raw)|] == line[..|Content(raw)|];
  }

  lemma MarkerStarts(kind: Kind, size: nat, rest: ByteString)
    requires size > 0
    ensures var line := MarkerBytes(kind, size) + rest;
            line[0] == MarkerByte(kind) && (forall i :: 0 <= i < size ==> line[i] == line[0]) && line[size..] == rest
  {
    assert forall i :: 0 <= i < size ==> MarkerBytes(kind, size)[i] == MarkerByte(kind);
  }

  lemma ByteTellsKind(b: Byte, kind: Kind)
    ensures KindOf(b) == Some(kind) <==> b == MarkerByte(kind)
  {}

  lemma LabelledReads(kind: Kind, size: nat, tag: Label)
    requires size > 0 && LabelFits(kind, tag)
    ensures Marker(MarkerBytes(kind, size) + LabelBytes(tag), size) == Some(kind)
  {
    MarkerStarts(kind, size, LabelBytes(tag));
    ByteTellsKind(MarkerByte(kind), kind);
    hide MarkerBytes, KindOf, MarkerByte;
  }

  lemma AreMarkerBytes(line: ByteString, kind: Kind, size: nat)
    requires size <= |line| && forall i :: 0 <= i < size ==> line[i] == MarkerByte(kind)
    ensures line[..size] == MarkerBytes(kind, size)
  {
    hide MarkerByte;
  }

  lemma MarkerHasLabel(line: ByteString, kind: Kind, size: nat) returns (tag: Label)
    requires size > 0 && Marker(line, size) == Some(kind)
    ensures LabelFits(kind, tag) && line == MarkerBytes(kind, size) + LabelBytes(tag)
  {
    hide KindOf, MarkerByte, MarkerBytes;
    ByteTellsKind(line[0], kind);
    AreMarkerBytes(line, kind, size);
    tag := if |line| == size then NoLabel else Label(line[size], line[size + 1..]);
    assert line == line[..size] + line[size..];
  }

  /** The marker reader accepts exactly the marker bytes with a fitting label. */
  lemma MarkerIsExact(line: ByteString, kind: Kind, size: nat)
    requires size > 0
    ensures Marker(line, size) == Some(kind) <==>
            exists tag: Label :: LabelFits(kind, tag) && line == MarkerBytes(kind, size) + LabelBytes(tag)
  {
    hide Marker, MarkerBytes, LabelBytes, LabelFits;
    if Marker(line, size) == Some(kind) {
      var tag := MarkerHasLabel(line, kind, size);
    }
    if tag: Label :| LabelFits(kind, tag) && line == MarkerBytes(kind, size) + LabelBytes(tag) {
      LabelledReads(kind, size, tag);
    }
  }

  /** A byte-order mark at the start of the source does not change what the line reads as. */
  lemma PrefixedReads(raw: ByteString, first: bool, size: nat, prefix: ByteString, line: ByteString)
    requires size > 0 && MayPrecede(prefix, first) && Content(raw) == prefix + line
    requires line != [] && line[0] < 128
    ensures LineKind(raw, first, size) == Marker(line, size)
  {
    hide Marker, Content;
    if prefix == [] {
      assert Content(raw)[0..] == line && [] + line == line;
    } else {
      assert BOM <= Content(raw) && Content(raw)[|BOM|..] == line;
    }
  }

  lemma MarkedLineReads(raw: ByteString, first: bool, kind: Kind, size: nat, prefix: ByteString, tag: Label,
                        end: ByteString)
    requires size > 0 && MayPrecede(prefix, first) && LabelFits(kind, tag) && IsLineEnd(end)
    requires raw == prefix + MarkerBytes(kind, size) + LabelBytes(tag) + end
    ensures LineKind(raw, first, size) == Some(kind)
  {
    hide Marker, Content, LineKind, LabelBytes, MayPrecede, LabelFits, IsLineEnd;
    var head := prefix + MarkerBytes(kind, size);
    assert head[|head| - 1] == MarkerByte(kind);
    ContentOfTail(head, LabelBytes(tag) + end);
    assert raw == head + (LabelBytes(tag) + end);
    var tag' := StrippedLabel(kind, tag, end);
    var line := MarkerBytes(kind, size) + LabelBytes(tag');
    assert Content(raw) == prefix + line;
    assert line[0] == MarkerByte(kind);
    PrefixedReads(raw, first, size, prefix, line);
    LabelledReads(kind, size, tag');
  }

  lemma EndHasNoContent(end: ByteString)
    requires IsLineEnd(end)
    ensures Content(end) == []
  {}

  lemma StrippedLabel(kind: Kind, tag: Label, end: ByteString) returns (tag': Label)
    requires LabelFits(kind, tag) && IsLineEnd(end)
    ensures LabelFits(kind, tag') && Content(LabelBytes(tag) + end) == LabelBytes(tag')
  {
    hide Content, IsLineEnd;
    match tag {
      case NoLabel =>
        tag' := NoLabel;
        EndHasNoContent(end);
        assert LabelBytes(tag) + end == end;
      case Label(blank, text) =>
        tag' := Label(blank, Content(text + end));
        ContentOfTail([blank], text + end);
        assert LabelBytes(tag) + end == [blank] + (text + end);
    }
  }

  /**
   * Which lines are markers: exactly those made of a byte-order mark if the line is the source's first,
   * `size` times the byte of the kind, a label that starts with a blank if there is one, which a
   * separator never has, and a line end. Longer or shorter runs, other labels and other lines are text.
   */
  lemma MarkerLinesAreExact(raw: ByteString, first: bool, kind: Kind, size: nat)
    requires size > 0
    ensures LineKind(raw, first, size) == Some(kind) <==> IsMarkerLine(raw, first, kind, size)
    ensures MarkerByte(kind) as int as char ==
            match kind case Opening => '<' case BaseMark => '|' case Separator => '=' case Closing => '>'
  {
    hide Marker, Content, LabelBytes, MarkerBytes, LabelFits, IsLineEnd;
    if LineKind(raw, first, size) == Some(kind) {
      var end := ContentAndEnd(raw);
      var bom := BomLength(raw, first);
      var prefix, line := Content(raw)[..bom], Content(raw)[bom..];
      MarkerIsExact(line, kind, size);
      var tag: Label :| LabelFits(kind, tag) && line == MarkerBytes(kind, size) + LabelBytes(tag);
      assert raw == prefix + MarkerBytes(kind, size) + LabelBytes(tag) + end;
    }
    if IsMarkerLine(raw, first, kind, size) {
      var prefix: ByteString, tag: Label, end: ByteString :|
        MayPrecede(prefix, first) && LabelFits(kind, tag) && IsLineEnd(end)
        && raw == prefix + MarkerBytes(kind, size) + LabelBytes(tag) + end;
      MarkedLineReads(raw, first, kind, size, prefix, tag, end);
    }
  }

  lemma PrintedConflictReads(c: ConflictText, size: nat)
    requires size > 0 && GoodLabels([Clash(c)])
    ensures var raw := PrintConflict(c, size);
            && MarksRead(raw, false, size) && MarksRead(raw, true, size)
            && MarksRead(raw.(opening := BOM + raw.opening), true, size)
  {
    hide LineKind, PrintMark;
    assert [Clash(c)][0].Clash?;
    PrintedMarkReads(Opening, c.opening, size);
    PrintedMarkReads(Separator, MarkLine(NoLabel, c.separatorEol), size);
    PrintedMarkReads(Closing, c.closing, size);
    if c.base.Some? {
      PrintedMarkReads(BaseMark, c.base.value.0, size);
    }
  }

  lemma {:induction false} PrintedBlocksRead(passages: seq<Passage>, first: bool, size: nat)
    requires size > 0 && GoodLabels(passages)
    requires ContentReadsPlain(PrintBlocks(passages, size), first, size)
    ensures BlocksRead(PrintBlocks(passages, size), first, size)
  {
    if passages != [] {
      hide ReadPlain, SidesReadPlain, MarksRead, PrintConflict, PrintLines;
      var blocks := PrintBlocks(passages, size);
      assert blocks[1..] == PrintBlocks(passages[1..], size);
      GoodLabelsSplit(passages);
      if passages[0].Clash? {
        PrintedConflictReads(passages[0].conflict, size);
      }
      PrintedBlocksRead(passages[1..], first && BlockLines(blocks[0]) == [], size);
    }
  }

  lemma GoodLabelsSplit(passages: seq<Passage>)
    requires passages != [] && GoodLabels(passages)
    ensures GoodLabels([passages[0]]) && GoodLabels(passages[1..])
  {
    assert forall k :: 0 <= k < |passages[1..]| ==> passages[1..][k] == passages[k + 1];
  }

  lemma {:induction false} BomBlocksRead(passages: seq<Passage>, size: nat)
    requires size > 0 && GoodLabels(passages)
    requires ContentReadsPlain(WithBom(PrintBlocks(passages, size)), true, size)
    ensures BlocksRead(WithBom(PrintBlocks(passages, size)), true, size)
  {
    var blocks := PrintBlocks(passages, size);
    var marked := WithBom(blocks);
    if passages == [] {
      assert marked[1..] == [];
    } else {
      hide ReadPlain, SidesReadPlain, MarksRead, PrintConflict, PrintLines;
      assert blocks[1..] == PrintBlocks(passages[1..], size);
      GoodLabelsSplit(passages);
      match passages[0] {
        case Prose(lines) =>
          if BlockLines(blocks[0]) == [] {
            assert marked[1..] == WithBom(blocks[1..]);
            BomBlocksRead(passages[1..], size);
          } else {
            assert marked[1..] == blocks[1..];
            PrintedBlocksRead(passages[1..], false, size);
          }
        case Clash(c) =>
          PrintedConflictReads(c, size);
          assert marked[1..] == blocks[1..];
          PrintedBlocksRead(passages[1..], false, size);
      }
    }
  }

  /** A byte-order mark changes no conflict but for its opening line. */
  lemma {:induction false} BomKeepsConflicts(blocks: seq<Block>)
    ensures |Conflicts(WithBom(blocks))| == |Conflicts(blocks)|
    ensures forall k :: 0 <= k < |Conflicts(blocks)| ==>
              Conflicts(WithBom(blocks))[k].(opening := []) == Conflicts(blocks)[k].(opening := [])
  {
    var marked := WithBom(blocks);
    if blocks == [] {
      assert marked[1..] == [];
    } else if blocks[0] == Plain([]) {
      BomKeepsConflicts(blocks[1..]);
      assert marked[1..] == WithBom(blocks[1..]);
    } else {
      assert marked[1..] == blocks[1..];
    }
  }

  /** It adds only itself to the text. */
  lemma {:induction false} BomAddsItself(blocks: seq<Block>)
    ensures Flatten(AllLines(WithBom(blocks))) == BOM + Flatten(AllLines(blocks))
  {
    hide Flatten, ConflictLines;
    var marked := WithBom(blocks);
    if blocks == [] {
      FlattenOne(BOM);
      FlattenNone(AllLines(blocks));
      assert marked[1..] == [] && AllLines(marked) == [BOM];
    } else if blocks[0] == Plain([]) {
      BomAddsItself(blocks[1..]);
      assert marked[1..] == WithBom(blocks[1..]);
      assert AllLines(marked) == AllLines(marked[1..]) && AllLines(blocks) == AllLines(blocks[1..]);
    } else {
      assert marked[1..] == blocks[1..];
      var rest := AllLines(blocks[1..]);
      BomOnBlock(blocks[0], marked[0], rest);
      BomInFront(AllLines(blocks));
    }
  }

  lemma BomOnBlock(block: Block, marked: Block, rest: seq<ByteString>)
    requires block != Plain([]) && [marked] == WithBom([block])
    ensures BlockLines(block) != []
    ensures BlockLines(marked) + rest == [BOM + (BlockLines(block) + rest)[0]] + (BlockLines(block) + rest)[1..]
  {
    assert marked == WithBom([block])[0];
    var lines := BlockLines(block);
    if block.Conflicted? {
      var c := block.conflict;
      OpeningFirst(c);
      OpeningFirst(c.(opening := BOM + c.opening));
    }
    hide ConflictLines;
    assert BlockLines(marked) == [BOM + lines[0]] + lines[1..];
    FirstChanges(lines, BOM + lines[0], rest);
  }

  lemma OpeningFirst(c: RawConflict)
    ensures ConflictLines(c) == [c.opening] + (c.ours + BaseLines(c) + [c.separator] + c.theirs + [c.closing])
  {}

  lemma FirstChanges(lines: seq<ByteString>, line: ByteString, rest: seq<ByteString>)
    requires lines != []
    ensures [line] + lines[1..] + rest == [line] + (lines + rest)[1..]
  {}

  lemma BomInFront(lines: seq<ByteString>)
    requires lines != []
    ensures Flatten([BOM + lines[0]] + lines[1..]) == BOM + Flatten(lines)
  {
    assert ([BOM + lines[0]] + lines[1..])[1..] == lines[1..];
  }

  lemma {:induction false} PrintedConflicts(passages: seq<Passage>, size: nat)
    ensures |Conflicts(PrintBlocks(passages, size))| == |Clashes(passages)|
    ensures forall k :: 0 <= k < |Clashes(passages)| ==>
              Conflicts(PrintBlocks(passages, size))[k] == PrintConflict(Clashes(passages)[k], size)
  {
    if passages != [] {
      hide PrintConflict, PrintLines;
      PrintedConflicts(passages[1..], size);
      assert PrintBlocks(passages, size)[1..] == PrintBlocks(passages[1..], size);
    }
  }

  function Clashes(passages: seq<Passage>): seq<ConflictText> {
    if passages == [] then []
    else (if passages[0].Clash? then [passages[0].conflict] else []) + Clashes(passages[1..])
  }

  /** The sides of a region slice back to the printed sides of a conflict. */
  predicate Reported(text: ByteString, region: Region, c: ConflictText) {
    && Get(text, region.ours) == Some(Flatten(PrintLines(c.ours)))
    && Get(text, region.theirs) == Some(Flatten(PrintLines(c.theirs)))
    && (region.base.Some? <==> c.base.Some?)
    && (c.base.Some? ==> Get(text, region.base.value) == Some(Flatten(PrintLines(c.base.value.1))))
  }

  /**
   * Review round trip. Printing any passages whose content lines are not markers, with LF or CRLF
   * ends, with or without a byte-order mark, a base side or a final newline, and reviewing the text
   * reports one region per conflict, whose sides slice back to exactly the printed ones.
   */
  lemma ReviewRoundTrips(passages: seq<Passage>, bom: bool, size: nat)
    requires 1 <= size <= MAX_MARKER_SIZE && GoodLabels(passages)
    requires AreLines(AllLines(Document(passages, bom, size)), NEWLINE)
    requires ContentReadsPlain(Document(passages, bom, size), true, size)
    requires |Clashes(passages)| <= MAX_REVIEW_REGIONS
    requires |Print(passages, bom, size)| <= MAX_REVIEW_BYTES && ValidUtf8(Print(passages, bom, size))
    ensures var text := Print(passages, bom, size);
            && Review(text, size).Ok?
            && |Review(text, size).value| == |Clashes(passages)|
            && forall k :: 0 <= k < |Clashes(passages)| ==>
                 Reported(text, Review(text, size).value[k], Clashes(passages)[k])
  {
    hide LineKind, ValidUtf8, AllLines, Conflicts, PrintBlocks, WithBom, BlocksRead, ContentReadsPlain, Review, Flatten,
      PrintMark;
    var printed, blocks := PrintBlocks(passages, size), Document(passages, bom, size);
    if bom {
      BomBlocksRead(passages, size);
      BomKeepsConflicts(printed);
    } else {
      PrintedBlocksRead(passages, true, size);
    }
    PrintedConflicts(passages, size);
    BlocksRoundTrip(blocks, size);
    var text := Print(passages, bom, size);
    forall k | 0 <= k < |Clashes(passages)| ensures Reported(text, Review(text, size).value[k], Clashes(passages)[k]) {
      assert GivesBack(text, Review(text, size).value[k], Conflicts(blocks)[k]);
      assert Conflicts(blocks)[k].(opening := []) == PrintConflict(Clashes(passages)[k], size).(opening := []);
    }
  }
}
