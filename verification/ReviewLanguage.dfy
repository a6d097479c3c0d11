/** Which marker sequences a review accepts, and how its regions lie in the source. */
module ReviewLanguage {
  import opened Wrappers
  import opened Sequences
  import opened Bytes
  import opened ConflictReview

  // ----- the language of marker sequences

  /** Complete conflicts one after another: opening, optional base mark, separator, closing. */
  predicate InLanguage(marks: seq<Kind>) {
    || marks == []
    || (|marks| >= 3 && marks[..3] == [Opening, Separator, Closing] && InLanguage(marks[3..]))
    || (|marks| >= 4 && marks[..4] == [Opening, BaseMark, Separator, Closing] && InLanguage(marks[4..]))
  }

  /** How many conflicts a marker sequence opens. */
  function Openings(marks: seq<Kind>): nat {
    if marks == [] then 0 else (if marks[0] == Opening then 1 else 0) + Openings(marks[1..])
  }

  /** The markers among the lines, in order. */
  function Marks(lines: seq<Seen>): seq<Kind> {
    if lines == [] then []
    else (if lines[0].kind.Some? then [lines[0].kind.value] else []) + Marks(lines[1..])
  }

  // ----- the machine without offsets

  datatype Phase = Outside | InOurs | InBase | InTheirs

  function PhaseOf(open: Option<Open>): Phase {
    if open.None? then Outside
    else if open.value.separator.Some? then InTheirs
    else if open.value.base.Some? then InBase
    else InOurs
  }

  function Advance(phase: Phase, mark: Kind): Option<Phase> {
    match (phase, mark)
    case (Outside, Opening) => Some(InOurs)
    case (InOurs, BaseMark) => Some(InBase)
    case (InOurs, Separator) => Some(InTheirs)
    case (InBase, Separator) => Some(InTheirs)
    case (InTheirs, Closing) => Some(Outside)
    case _ => None
  }

  /** Reads the marks within a budget of conflicts to open. */
  function Accept(phase: Phase, marks: seq<Kind>, budget: nat): Option<Phase>
    decreases |marks|
  {
    if marks == [] then Some(phase)
    else if Advance(phase, marks[0]).None? then None
    else if marks[0] != Opening then Accept(Advance(phase, marks[0]).value, marks[1..], budget)
    else if budget == 0 then None
    else Accept(Advance(phase, marks[0]).value, marks[1..], budget - 1)
  }

  lemma AcceptConflict(marks: seq<Kind>, budget: nat)
    requires |marks| >= 3 && marks[..3] == [Opening, Separator, Closing]
    ensures Accept(Outside, marks, budget) == if budget == 0 then None else Accept(Outside, marks[3..], budget - 1)
    ensures Openings(marks) == 1 + Openings(marks[3..])
    ensures InLanguage(marks) <==> InLanguage(marks[3..])
  {
    assert marks[0] == marks[..3][0] && marks[1] == marks[..3][1] && marks[2] == marks[..3][2];
    assert marks[1..][0] == Separator && marks[1..][1..] == marks[2..];
    assert marks[2..][0] == Closing && marks[2..][1..] == marks[3..];
    assert Openings(marks[1..]) == Openings(marks[2..]) == Openings(marks[3..]);
    assert |marks| >= 4 ==> marks[..4][1] == Separator;
    if budget > 0 {
      assert Accept(InOurs, marks[1..], budget - 1) == Accept(InTheirs, marks[2..], budget - 1);
      assert Accept(InTheirs, marks[2..], budget - 1) == Accept(Outside, marks[3..], budget - 1);
    }
  }

  lemma AcceptDiff3Conflict(marks: seq<Kind>, budget: nat)
    requires |marks| >= 4 && marks[..4] == [Opening, BaseMark, Separator, Closing]
    ensures Accept(Outside, marks, budget) == if budget == 0 then None else Accept(Outside, marks[4..], budget - 1)
    ensures Openings(marks) == 1 + Openings(marks[4..])
    ensures InLanguage(marks) <==> InLanguage(marks[4..])
  {
    assert marks[0] == marks[..4][0] && marks[1] == marks[..4][1] && marks[2] == marks[..4][2]
           && marks[3] == marks[..4][3];
    assert marks[1..][0] == BaseMark && marks[1..][1..] == marks[2..];
    assert marks[2..][0] == Separator && marks[2..][1..] == marks[3..];
    assert marks[3..][0] == Closing && marks[3..][1..] == marks[4..];
    assert Openings(marks[1..]) == Openings(marks[2..]) == Openings(marks[3..]) == Openings(marks[4..]);
    assert marks[..3][1] == BaseMark;
    if budget > 0 {
      assert Accept(InOurs, marks[1..], budget - 1) == Accept(InBase, marks[2..], budget - 1);
      assert Accept(InBase, marks[2..], budget - 1) == Accept(InTheirs, marks[3..], budget - 1);
      assert Accept(InTheirs, marks[3..], budget - 1) == Accept(Outside, marks[4..], budget - 1);
    }
  }

  /** From outside, the marks lead back outside exactly when they are in the language and the budget. */
  lemma {:induction false} AcceptsLanguage(marks: seq<Kind>, budget: nat)
    ensures Accept(Outside, marks, budget) == Some(Outside) <==> InLanguage(marks) && Openings(marks) <= budget
    decreases |marks|
  {
    if |marks| >= 3 && marks[..3] == [Opening, Separator, Closing] {
      AcceptConflict(marks, budget);
      if budget > 0 {
        AcceptsLanguage(marks[3..], budget - 1);
      }
    } else if |marks| >= 4 && marks[..4] == [Opening, BaseMark, Separator, Closing] {
      AcceptDiff3Conflict(marks, budget);
      if budget > 0 {
        AcceptsLanguage(marks[4..], budget - 1);
      }
    } else if marks != [] {
      NoFirstConflict(marks, budget);
    }
  }

  lemma ReadsOne(phase: Phase, marks: seq<Kind>, budget: nat)
    ensures marks == [] ==> Accept(phase, marks, budget) == Some(phase)
    ensures marks != [] && Advance(phase, marks[0]).None? ==> Accept(phase, marks, budget) == None
    ensures marks != [] && Advance(phase, marks[0]).Some? && marks[0] != Opening ==>
              Accept(phase, marks, budget) == Accept(Advance(phase, marks[0]).value, marks[1..], budget)
    ensures marks != [] && Advance(phase, marks[0]).Some? && marks[0] == Opening ==>
              Accept(phase, marks, budget) ==
              if budget == 0 then None else Accept(Advance(phase, marks[0]).value, marks[1..], budget - 1)
  {}

  lemma NoFirstConflict(marks: seq<Kind>, budget: nat)
    requires marks != []
    requires !(|marks| >= 3 && marks[..3] == [Opening, Separator, Closing])
    requires !(|marks| >= 4 && marks[..4] == [Opening, BaseMark, Separator, Closing])
    ensures Accept(Outside, marks, budget) != Some(Outside)
  {
    hide Accept;
    ReadsOne(Outside, marks, budget);
    if marks[0] == Opening && budget > 0 {
      ReadsOne(InOurs, marks[1..], budget - 1);
      if |marks| >= 2 {
        var two := marks[1..][1..];
        assert |marks| >= 3 ==> marks[..3] == [marks[0], marks[1], two[0]];
        if marks[1] == Separator {
          ReadsOne(InTheirs, two, budget - 1);
        } else if marks[1] == BaseMark {
          ReadsOne(InBase, two, budget - 1);
          if two != [] && two[0] == Separator {
            ReadsOne(InTheirs, two[1..], budget - 1);
            assert |marks| >= 4 ==> marks[..4] == [marks[0], marks[1], two[0], two[1..][0]];
          }
        }
      }
    }
  }

  /** The machine with offsets runs exactly as far as the machine without. */
  lemma {:induction false} RunIsAccept(state: State, lines: seq<Seen>)
    requires |state.regions| <= MAX_REVIEW_REGIONS
    requires state.open.Some? ==> |state.regions| < MAX_REVIEW_REGIONS
    ensures var budget := MAX_REVIEW_REGIONS - |state.regions| - (if state.open.Some? then 1 else 0);
            var phase := Accept(PhaseOf(state.open), Marks(lines), budget);
            && (Run(state, lines).Ok? <==> phase.Some?)
            && (phase.Some? ==> PhaseOf(Run(state, lines).value.open) == phase.value)
    decreases |lines|
  {
    if lines != [] {
      var next := Step(state, lines[0]);
      assert if lines[0].kind.None? then Marks(lines) == Marks(lines[1..])
             else Marks(lines)[0] == lines[0].kind.value && Marks(lines)[1..] == Marks(lines[1..]);
      if next.Ok? {
        RunIsAccept(next.value, lines[1..]);
      }
    }
  }

  function LinesOf(bytes: ByteString, size: nat): seq<Seen>
    requires size > 0
  {
    SeenLines(SplitInclusive(bytes, NEWLINE), 0, 1, size)
  }

  /**
   * Recognizer exactness. Within the byte and marker-size limits a review of UTF-8 text succeeds
   * exactly when its marker lines are complete conflicts one after another, at most the limit of them.
   */
  lemma ReviewAcceptsLanguage(bytes: ByteString, size: nat)
    requires |bytes| <= MAX_REVIEW_BYTES && 1 <= size <= MAX_MARKER_SIZE && ValidUtf8(bytes)
    ensures var marks := Marks(LinesOf(bytes, size));
            Review(bytes, size).Ok? <==> InLanguage(marks) && Openings(marks) <= MAX_REVIEW_REGIONS
  {
    hide ValidUtf8, SplitInclusive, InLanguage, Run, Accept, Marks;
    var lines := LinesOf(bytes, size);
    RunIsAccept(START, lines);
    AcceptsLanguage(Marks(lines), MAX_REVIEW_REGIONS);
  }

  // ----- where the regions lie

  /** Lines `from .. to` stand between two offsets, and none of them is a marker. */
  predicate PlainLines(lines: seq<Seen>, range: ByteRange, from: nat, to: nat) {
    && from <= to < |lines|
    && lines[from].offset == range.start
    && lines[to].offset == range.end
    && forall k :: from <= k < to ==> lines[k].kind.None?
  }

  /** The marker lines of one region; `base` is the separator's index when there is no base side. */
  datatype Frame = Frame(opening: nat, base: nat, separator: nat, closing: nat)

  /**
   * The region consists of four (or three) marker lines and the plain lines between them: its ours,
   * base and theirs sides are exactly those plain lines, in this order.
   */
  predicate Frames(lines: seq<Seen>, region: Region, frame: Frame) {
    && frame.opening < frame.base <= frame.separator < frame.closing < |lines|
    && lines[frame.opening].kind == Some(Opening)
    && lines[frame.separator].kind == Some(Separator)
    && lines[frame.closing].kind == Some(Closing)
    && (region.base.Some? <==> frame.base < frame.separator)
    && (region.base.Some? ==>
          && lines[frame.base].kind == Some(BaseMark)
          && PlainLines(lines, region.base.value, frame.base + 1, frame.separator))
    && PlainLines(lines, region.ours, frame.opening + 1, frame.base)
    && PlainLines(lines, region.theirs, frame.separator + 1, frame.closing)
    && region.range == ByteRange(lines[frame.opening].offset + lines[frame.opening].bom, lines[frame.closing].end)
    && region.startLine == lines[frame.opening].number
    && region.separatorLine == lines[frame.separator].number
    && region.endLine == lines[frame.closing].number
  }

  /** The frames are in order, and every marker line before `to` belongs to one of them. */
  predicate FramesCover(lines: seq<Seen>, frames: seq<Frame>, to: nat)
    requires to <= |lines|
  {
    && (forall i :: 0 <= i < |frames| ==> frames[i].closing < to)
    && (forall i, j :: 0 <= i < j < |frames| ==> frames[i].closing < frames[j].opening)
    && (forall k :: 0 <= k < to && lines[k].kind.Some? ==>
          exists i :: 0 <= i < |frames| && frames[i].opening <= k <= frames[i].closing)
  }

  predicate AllFramed(lines: seq<Seen>, regions: seq<Region>, frames: seq<Frame>) {
    |frames| == |regions| && forall i :: 0 <= i < |frames| ==> Frames(lines, regions[i], frames[i])
  }

  /** An open conflict whose markers so far stand at the given lines, with plain lines since. */
  ghost predicate OpenAt(lines: seq<Seen>, open: Open, frame: Frame, to: nat)
    requires to <= |lines|
  {
    && frame.opening < to
    && lines[frame.opening].kind == Some(Opening)
    && open.start == lines[frame.opening].offset + lines[frame.opening].bom
    && open.startLine == lines[frame.opening].number
    && open.ours == lines[frame.opening].end
    && (open.base.Some? ==>
          && frame.opening < frame.base < to && lines[frame.base].kind == Some(BaseMark)
          && open.base.value == (lines[frame.base].offset, lines[frame.base].end)
          && forall k :: frame.opening < k < frame.base ==> lines[k].kind.None?)
    && var after := if open.base.Some? then frame.base else frame.opening;
       if open.separator.Some? then
         && after < frame.separator < to && lines[frame.separator].kind == Some(Separator)
         && open.separator.value ==
            (lines[frame.separator].offset, lines[frame.separator].end, lines[frame.separator].number)
         && (forall k :: after < k < frame.separator ==> lines[k].kind.None?)
         && (forall k :: frame.separator < k < to ==> lines[k].kind.None?)
       else
         forall k :: after < k < to ==> lines[k].kind.None?
  }

  /** Closed regions are framed, in order, and account for every marker line outside the open conflict. */
  ghost predicate Placed(lines: seq<Seen>, state: State, frames: seq<Frame>, frame: Frame, to: nat)
    requires to <= |lines|
  {
    && AllFramed(lines, state.regions, frames)
    && (state.open.None? ==> FramesCover(lines, frames, to))
    && (state.open.Some? ==> OpenAt(lines, state.open.value, frame, to) && FramesCover(lines, frames, frame.opening))
  }

  /** Each line starts where the one before it ends. */
  predicate Consecutive(lines: seq<Seen>) {
    forall k :: 0 <= k < |lines| - 1 ==> lines[k].end == lines[k + 1].offset
  }

  lemma StepKeepsPlaced(lines: seq<Seen>, state: State, frames: seq<Frame>, frame: Frame, to: nat)
    returns (nextFrames: seq<Frame>, nextFrame: Frame)
    requires to < |lines| && Consecutive(lines)
    requires Placed(lines, state, frames, frame, to) && Step(state, lines[to]).Ok?
    ensures Placed(lines, Step(state, lines[to]).value, nextFrames, nextFrame, to + 1)
  {
    hide Frames, Consecutive, OpenAt, FramesCover;
    nextFrames, nextFrame := frames, frame;
    match lines[to].kind {
      case None =>
        if state.open.None? {
          CoverPasses(lines, frames, to);
        } else {
          OpenPasses(lines, state.open.value, frame, to);
        }
      case Some(Opening) =>
        nextFrame := Frame(to, 0, 0, 0);
        OpenStarts(lines, to);
      case Some(BaseMark) =>
        nextFrame := frame.(base := to);
        OpenGetsBase(lines, state.open.value, frame, to);
      case Some(Separator) =>
        nextFrame := frame.(separator := to);
        OpenGetsSeparator(lines, state.open.value, frame, to);
      case Some(Closing) =>
        var base := if state.open.value.base.Some? then frame.base else frame.separator;
        var closed := Frame(frame.opening, base, frame.separator, to);
        nextFrames := frames + [closed];
        ClosedIsFramed(lines, state.open.value, |state.regions|, frame, to);
        CoverCloses(lines, frames, closed, to);
    }
  }

  lemma CoverPasses(lines: seq<Seen>, frames: seq<Frame>, to: nat)
    requires to < |lines| && FramesCover(lines, frames, to) && lines[to].kind.None?
    ensures FramesCover(lines, frames, to + 1)
  {}

  lemma OpenPasses(lines: seq<Seen>, open: Open, frame: Frame, to: nat)
    requires to < |lines| && OpenAt(lines, open, frame, to) && lines[to].kind.None?
    ensures frame.opening < to && OpenAt(lines, open, frame, to + 1)
  {}

  lemma OpenStarts(lines: seq<Seen>, to: nat)
    requires to < |lines| && lines[to].kind == Some(Opening)
    ensures OpenAt(lines, Open(lines[to].offset + lines[to].bom, lines[to].number, lines[to].end, None, None),
                   Frame(to, 0, 0, 0), to + 1)
  {}

  lemma OpenGetsBase(lines: seq<Seen>, open: Open, frame: Frame, to: nat)
    requires to < |lines| && OpenAt(lines, open, frame, to) && open.base.None? && open.separator.None?
    requires lines[to].kind == Some(BaseMark)
    ensures OpenAt(lines, open.(base := Some((lines[to].offset, lines[to].end))), frame.(base := to), to + 1)
  {}

  lemma OpenGetsSeparator(lines: seq<Seen>, open: Open, frame: Frame, to: nat)
    requires to < |lines| && OpenAt(lines, open, frame, to) && open.separator.None?
    requires lines[to].kind == Some(Separator)
    ensures OpenAt(lines, open.(separator := Some((lines[to].offset, lines[to].end, lines[to].number))),
                   frame.(separator := to), to + 1)
  {}

  lemma ClosedIsFramed(lines: seq<Seen>, open: Open, index: nat, frame: Frame, to: nat)
    requires to < |lines| && Consecutive(lines) && OpenAt(lines, open, frame, to)
    requires open.separator.Some? && lines[to].kind == Some(Closing)
    ensures var base := if open.base.Some? then frame.base else frame.separator;
            && frame.opening < to
            && Frames(lines, Completed(open, index, lines[to]), Frame(frame.opening, base, frame.separator, to))
  {}

  lemma CoverCloses(lines: seq<Seen>, frames: seq<Frame>, closed: Frame, to: nat)
    requires to < |lines| && closed.opening < closed.closing == to
    requires FramesCover(lines, frames, closed.opening)
    ensures FramesCover(lines, frames + [closed], to + 1)
  {
    var all := frames + [closed];
    forall k | 0 <= k < to + 1 && lines[k].kind.Some?
      ensures exists i :: 0 <= i < |all| && all[i].opening <= k <= all[i].closing
    {
      if k < closed.opening {
        var i :| 0 <= i < |frames| && frames[i].opening <= k <= frames[i].closing;
        assert all[i] == frames[i];
      } else {
        assert all[|frames|] == closed;
      }
    }
  }

  lemma {:induction false} RunKeepsPlaced(lines: seq<Seen>, state: State, frames: seq<Frame>, frame: Frame, from: nat)
    returns (lastFrames: seq<Frame>, lastFrame: Frame)
    requires from <= |lines| && Consecutive(lines)
    requires Placed(lines, state, frames, frame, from) && Run(state, lines[from..]).Ok?
    ensures Placed(lines, Run(state, lines[from..]).value, lastFrames, lastFrame, |lines|)
    decreases |lines| - from
  {
    lastFrames, lastFrame := frames, frame;
    if from < |lines| {
      hide Placed;
      assert lines[from..][1..] == lines[from + 1..];
      var nextFrames, nextFrame := StepKeepsPlaced(lines, state, frames, frame, from);
      lastFrames, lastFrame := RunKeepsPlaced(lines, Step(state, lines[from]).value, nextFrames, nextFrame, from + 1);
    }
  }

  lemma {:induction false} SeenLinesAt(lines: seq<ByteString>, offset: nat, number: nat, size: nat, k: nat)
    requires size > 0 && k < |lines|
    ensures var seen := SeenLines(lines, offset, number, size)[k];
            && seen.offset == offset + Offset(lines, k)
            && seen.end == seen.offset + |lines[k]|
            && seen.number == number + k
            && seen == SeenLine(lines[k], seen.offset, seen.number, size)
  {
    hide LineKind, BomLength;
    if k > 0 {
      SeenLinesAt(lines[1..], offset + |lines[0]|, number + 1, size, k - 1);
      assert lines[..k] == [lines[0]] + lines[1..][..k - 1];
    }
  }

  lemma LinesAreConsecutive(bytes: ByteString, size: nat)
    requires size > 0
    ensures Consecutive(LinesOf(bytes, size))
  {
    hide SplitInclusive, LineKind, BomLength;
    var lines := SplitInclusive(bytes, NEWLINE);
    forall k | 0 <= k < |lines| - 1 ensures LinesOf(bytes, size)[k].end == LinesOf(bytes, size)[k + 1].offset {
      SeenLinesAt(lines, 0, 1, size, k);
      SeenLinesAt(lines, 0, 1, size, k + 1);
      OffsetNext(lines, k);
    }
  }

  /**
   * Region exactness. The regions of a successful review are framed by marker lines, in order and
   * apart; their sides are the plain lines between those markers; and no marker line lies elsewhere.
   */
  lemma RegionsAreFramed(bytes: ByteString, size: nat)
    requires Review(bytes, size).Ok?
    ensures size > 0
    ensures var lines := LinesOf(bytes, size);
            exists frames: seq<Frame> ::
              AllFramed(lines, Review(bytes, size).value, frames) && FramesCover(lines, frames, |lines|)
  {
    hide ValidUtf8, SplitInclusive, SeenLines, AllFramed, FramesCover;
    var lines := LinesOf(bytes, size);
    LinesAreConsecutive(bytes, size);
    assert lines[0..] == lines;
    NothingPlaced(lines);
    var frames, frame := RunKeepsPlaced(lines, START, [], Frame(0, 0, 0, 0), 0);
  }

  lemma NothingPlaced(lines: seq<Seen>)
    ensures Placed(lines, START, [], Frame(0, 0, 0, 0), 0)
  {}

  lemma {:induction false} LineOffsetsIncrease(lines: seq<Seen>, i: nat, j: nat)
    requires i < j < |lines| && Consecutive(lines)
    requires forall k :: 0 <= k < |lines| ==> lines[k].offset <= lines[k].end
    ensures lines[i].end <= lines[j].offset
    decreases j
  {
    if i < j - 1 {
      LineOffsetsIncrease(lines, i, j - 1);
    }
  }

  /** Regions increase and do not overlap. */
  lemma RegionsIncrease(bytes: ByteString, size: nat, i: nat, j: nat)
    requires Review(bytes, size).Ok? && i < j < |Review(bytes, size).value|
    ensures Review(bytes, size).value[i].range.end <= Review(bytes, size).value[j].range.start
  {
    hide Review, SplitInclusive, SeenLines, AllFramed, FramesCover, LinesOf, Consecutive;
    RegionsAreFramed(bytes, size);
    LinesAreConsecutive(bytes, size);
    LineRangesAreOrdered(bytes, size);
    var lines, regions := LinesOf(bytes, size), Review(bytes, size).value;
    var frames: seq<Frame> :| AllFramed(lines, regions, frames) && FramesCover(lines, frames, |lines|);
    FramedRegionsIncrease(lines, regions, frames, i, j);
  }

  lemma FramedRegionsIncrease(lines: seq<Seen>, regions: seq<Region>, frames: seq<Frame>, i: nat, j: nat)
    requires AllFramed(lines, regions, frames) && FramesCover(lines, frames, |lines|) && Consecutive(lines)
    requires forall k :: 0 <= k < |lines| ==> lines[k].offset <= lines[k].end
    requires i < j < |regions|
    ensures regions[i].range.end <= regions[j].range.start
  {
    hide PlainLines;
    assert Frames(lines, regions[i], frames[i]) && Frames(lines, regions[j], frames[j]);
    LineOffsetsIncrease(lines, frames[i].closing, frames[j].opening);
  }

  lemma LineRangesAreOrdered(bytes: ByteString, size: nat)
    requires size > 0
    ensures forall k :: 0 <= k < |LinesOf(bytes, size)| ==>
              LinesOf(bytes, size)[k].offset <= LinesOf(bytes, size)[k].end
  {
    hide SplitInclusive, LineKind, BomLength;
    forall k | 0 <= k < |LinesOf(bytes, size)| ensures LinesOf(bytes, size)[k].offset <= LinesOf(bytes, size)[k].end {
      SeenLinesAt(SplitInclusive(bytes, NEWLINE), 0, 1, size, k);
    }
  }
}
