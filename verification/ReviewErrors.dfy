/** Which error a refused review reports, and for which line. */
module ReviewErrors {
  import opened Wrappers
  import opened Sequences
  import Text
  import opened Bytes
  import opened ConflictReview
  import opened ReviewLanguage
  import opened ReviewRoundTrip

  /** More markers can complete the conflicts. */
  ghost predicate Viable(marks: seq<Kind>) {
    exists rest: seq<Kind> :: InLanguage(marks + rest)
  }

  // ----- viable marks are accepted marks

  lemma {:induction false} OpeningsAppend(a: seq<Kind>, b: seq<Kind>)
    ensures Openings(a + b) == Openings(a) + Openings(b)
  {
    if a == [] {
      assert a + b == b;
    } else {
      OpeningsAppend(a[1..], b);
      assert (a + b)[0] == a[0] && (a + b)[1..] == a[1..] + b;
    }
  }

  /** A budget matters only as a bound on the openings. */
  lemma {:induction false} BudgetIsBound(phase: Phase, marks: seq<Kind>, budget: nat)
    ensures Accept(phase, marks, budget).Some? <==>
            Accept(phase, marks, Openings(marks)).Some? && Openings(marks) <= budget
    ensures Accept(phase, marks, budget).Some? ==>
              Accept(phase, marks, budget) == Accept(phase, marks, Openings(marks))
    decreases |marks|
  {
    if marks != [] && Advance(phase, marks[0]).Some? {
      var next := Advance(phase, marks[0]).value;
      if marks[0] != Opening {
        BudgetIsBound(next, marks[1..], budget);
      } else if budget > 0 {
        BudgetIsBound(next, marks[1..], budget - 1);
      }
    }
  }

  lemma {:induction false} AcceptAppend(phase: Phase, a: seq<Kind>, b: seq<Kind>, budget: nat)
    requires Openings(a) <= budget
    ensures Accept(phase, a + b, budget) ==
            match Accept(phase, a, budget)
            case None => None
            case Some(next) => Accept(next, b, budget - Openings(a))
    decreases |a|
  {
    if a == [] {
      assert a + b == b;
    } else {
      assert (a + b)[0] == a[0] && (a + b)[1..] == a[1..] + b;
      if Advance(phase, a[0]).Some? {
        AcceptAppend(Advance(phase, a[0]).value, a[1..], b, if a[0] == Opening then budget - 1 else budget);
      }
    }
  }

  /** Marks that lead back outside. */
  function Completion(phase: Phase): (rest: seq<Kind>)
    ensures Openings(rest) == 0 && Accept(phase, rest, 0) == Some(Outside)
  {
    match phase
    case Outside => []
    case InTheirs => [Closing]
    case InOurs => assert [Separator, Closing][1..] == [Closing]; [Separator, Closing]
    case InBase => assert [Separator, Closing][1..] == [Closing]; [Separator, Closing]
  }

  lemma ViableIsAccepted(marks: seq<Kind>, budget: nat)
    ensures Accept(Outside, marks, budget).Some? <==> Viable(marks) && Openings(marks) <= budget
  {
    hide InLanguage, Accept, Openings;
    var n := Openings(marks);
    BudgetIsBound(Outside, marks, budget);
    if Accept(Outside, marks, n).Some? {
      var rest := Completion(Accept(Outside, marks, n).value);
      AcceptAppend(Outside, marks, rest, n);
      AcceptsLanguage(marks + rest, n);
    }
    if Viable(marks) {
      var rest: seq<Kind> :| InLanguage(marks + rest);
      AcceptsLanguage(marks + rest, Openings(marks + rest));
      OpeningsAppend(marks, rest);
      AcceptAppend(Outside, marks, rest, Openings(marks + rest));
      BudgetIsBound(Outside, marks, Openings(marks + rest));
    }
  }

  // ----- the state after some lines

  lemma {:induction false} MarksAppend(a: seq<Seen>, b: seq<Seen>)
    ensures Marks(a + b) == Marks(a) + Marks(b)
  {
    if a == [] {
      assert a + b == b;
    } else {
      MarksAppend(a[1..], b);
      assert (a + b)[0] == a[0] && (a + b)[1..] == a[1..] + b;
    }
  }

  lemma MarkOfOne(line: Seen)
    ensures Marks([line]) == if line.kind.Some? then [line.kind.value] else []
  {
    assert [line][1..] == [];
  }

  /** Every opening has become a region, or the open conflict. */
  lemma {:induction false} OpeningsAreCounted(state: State, lines: seq<Seen>)
    requires Run(state, lines).Ok?
    ensures var end := Run(state, lines).value;
            |end.regions| + (if end.open.Some? then 1 else 0) ==
            |state.regions| + (if state.open.Some? then 1 else 0) + Openings(Marks(lines))
    decreases |lines|
  {
    if lines != [] {
      OpeningsAreCounted(Step(state, lines[0]).value, lines[1..]);
      MarkOfOne(lines[0]);
      assert lines == [lines[0]] + lines[1..];
      MarksAppend([lines[0]], lines[1..]);
      OpeningsAppend(Marks([lines[0]]), Marks(lines[1..]));
      assert lines[0].kind.Some? ==> [lines[0].kind.value][1..] == [];
      hide Marks, Openings, Run;
    }
  }

  /** What is known about the state after lines that were read without an error. */
  lemma StateAfter(lines: seq<Seen>)
    ensures var marks := Marks(lines);
            && (Run(START, lines).Ok? <==> Viable(marks) && Openings(marks) <= MAX_REVIEW_REGIONS)
            && (Run(START, lines).Ok? ==>
                  var state := Run(START, lines).value;
                  && Accept(Outside, marks, MAX_REVIEW_REGIONS) == Some(PhaseOf(state.open))
                  && |state.regions| + (if state.open.Some? then 1 else 0) == Openings(marks)
                  && (state.open.None? <==> InLanguage(marks)))
  {
    hide Run, InLanguage, Accept, Marks;
    RunIsAccept(START, lines);
    ViableIsAccepted(Marks(lines), MAX_REVIEW_REGIONS);
    AcceptsLanguage(Marks(lines), MAX_REVIEW_REGIONS);
    if Run(START, lines).Ok? {
      OpeningsAreCounted(START, lines);
    }
  }

  /** A run ends with an error exactly at a line whose step fails. */
  lemma {:induction false} RunFailsAt(state: State, lines: seq<Seen>) returns (i: nat)
    requires Run(state, lines).Err?
    ensures i < |lines| && Run(state, lines[..i]).Ok?
    ensures Step(Run(state, lines[..i]).value, lines[i]) == Err(Run(state, lines).error)
    decreases |lines|
  {
    if Step(state, lines[0]).Err? {
      i := 0;
      assert lines[..0] == [];
    } else {
      i := RunFailsAt(Step(state, lines[0]).value, lines[1..]);
      assert lines[..i + 1][0] == lines[0] && lines[..i + 1][1..] == lines[1..][..i];
      i := i + 1;
    }
  }

  lemma FailureIsReported(state: State, lines: seq<Seen>, i: nat)
    requires i < |lines| && Run(state, lines[..i]).Ok? && Step(Run(state, lines[..i]).value, lines[i]).Err?
    ensures Run(state, lines) == Err(Step(Run(state, lines[..i]).value, lines[i]).error)
  {
    assert lines == lines[..i] + lines[i..] && lines[i..][0] == lines[i];
    RunAppend(state, lines[..i], lines[i..]);
  }

  // ----- the errors

  /** The markers above line `i` can be completed, within the limit; with line `i` they cannot. */
  ghost predicate BreaksAt(lines: seq<Seen>, i: nat) {
    && i < |lines|
    && Viable(Marks(lines[..i])) && Openings(Marks(lines[..i])) <= 10000
    && !Viable(Marks(lines[..i + 1]))
  }

  /** Line `i` opens one conflict more than the limit, after complete conflicts. */
  predicate ExceedsAt(lines: seq<Seen>, i: nat) {
    && i < |lines| && lines[i].kind == Some(Opening)
    && InLanguage(Marks(lines[..i])) && Openings(Marks(lines[..i])) == 10000
  }

  lemma StepFails(lines: seq<Seen>, i: nat)
    requires i < |lines| && Run(START, lines[..i]).Ok?
    ensures var step := Step(Run(START, lines[..i]).value, lines[i]);
            && (step == Err(InvalidMarkers(lines[i].number)) <==> BreaksAt(lines, i))
            && (step == Err(RegionLimit(lines[i].number)) <==> ExceedsAt(lines, i))
            && (step.Ok? || step == Err(InvalidMarkers(lines[i].number)) || step == Err(RegionLimit(lines[i].number)))
  {
    hide Run, InLanguage, Marks, Viable, Openings;
    StateAfter(lines[..i]);
    var state, marks := Run(START, lines[..i]).value, Marks(lines[..i]);
    assert lines[..i + 1] == lines[..i] + [lines[i]];
    MarksAppend(lines[..i], [lines[i]]);
    MarkOfOne(lines[i]);
    if lines[i].kind.Some? {
      OneMoreMark(marks, lines[i].kind.value, PhaseOf(state.open));
    } else {
      assert marks + [] == marks;
    }
  }

  lemma OneMoreMark(marks: seq<Kind>, mark: Kind, phase: Phase)
    requires Accept(Outside, marks, MAX_REVIEW_REGIONS) == Some(phase)
    ensures Viable(marks + [mark]) <==> Advance(phase, mark).Some?
  {
    hide InLanguage, Viable;
    var budget := Openings(marks) + 1;
    BudgetIsBound(Outside, marks, MAX_REVIEW_REGIONS);
    BudgetIsBound(Outside, marks, budget);
    OpeningsAppend(marks, [mark]);
    ViableIsAccepted(marks + [mark], budget);
    AcceptAppend(Outside, marks, [mark], budget);
    assert [mark][1..] == [];
  }

  lemma NumbersCount(bytes: ByteString, size: nat, i: nat)
    requires size > 0 && i < |LinesOf(bytes, size)|
    ensures LinesOf(bytes, size)[i].number == i + 1
  {
    hide SeenLine, SplitInclusive;
    SeenLinesAt(SplitInclusive(bytes, NEWLINE), 0, 1, size, i);
  }

  /**
   * Error exactness. Within the byte and marker-size limits a refused review of UTF-8 text names the
   * first line whose marker no text below could complete any more, the opening that exceeds the limit
   * of complete conflicts, or the opening of the conflict that is still open at the end.
   */
  lemma ErrorsAreExact(bytes: ByteString, size: nat, n: nat)
    requires |bytes| <= MAX_REVIEW_BYTES && 1 <= size <= MAX_MARKER_SIZE && ValidUtf8(bytes)
    ensures var lines := LinesOf(bytes, size);
            && (Review(bytes, size) == Err(InvalidMarkers(n)) <==> n > 0 && BreaksAt(lines, n - 1))
            && (Review(bytes, size) == Err(RegionLimit(n)) <==> n > 0 && ExceedsAt(lines, n - 1))
            && (Review(bytes, size).Err? && Review(bytes, size).error.Unterminated? <==>
                  && Viable(Marks(lines)) && Openings(Marks(lines)) <= 10000 && !InLanguage(Marks(lines)))
  {
    hide ValidUtf8, SplitInclusive, Run, InLanguage, Marks, Viable, Openings, SeenLines, Step, BreaksAt, ExceedsAt;
    var lines := LinesOf(bytes, size);
    StateAfter(lines);
    if Run(START, lines).Err? {
      var i := RunFailsAt(START, lines);
      StepFails(lines, i);
      NumbersCount(bytes, size, i);
    }
    if n > 0 && n - 1 < |lines| {
      BreakingFails(lines, n - 1);
      NumbersCount(bytes, size, n - 1);
    }
    PastTheEnd(lines, n);
  }

  lemma PastTheEnd(lines: seq<Seen>, n: nat)
    ensures n > 0 && (BreaksAt(lines, n - 1) || ExceedsAt(lines, n - 1)) ==> n - 1 < |lines|
  {}

  lemma BreakingFails(lines: seq<Seen>, i: nat)
    requires i < |lines|
    ensures BreaksAt(lines, i) ==> Run(START, lines) == Err(InvalidMarkers(lines[i].number))
    ensures ExceedsAt(lines, i) ==> Run(START, lines) == Err(RegionLimit(lines[i].number))
  {
    hide Run, InLanguage, Marks, Viable, Openings, Step;
    StateAfter(lines[..i]);
    if ExceedsAt(lines, i) {
      CompleteIsViable(Marks(lines[..i]));
    }
    if BreaksAt(lines, i) || ExceedsAt(lines, i) {
      StepFails(lines, i);
      FailureIsReported(START, lines, i);
    }
  }

  lemma CompleteIsViable(marks: seq<Kind>)
    requires InLanguage(marks)
    ensures Viable(marks)
  {
    assert marks + [] == marks;
  }

  /** An unterminated review names the last opening. */
  lemma {:induction false} OpenIsLastOpening(lines: seq<Seen>, n: nat)
    requires n <= |lines| && Run(START, lines[..n]).Ok? && Run(START, lines[..n]).value.open.Some?
    ensures exists i :: 0 <= i < n && lines[i].kind == Some(Opening)
              && lines[i].number == Run(START, lines[..n]).value.open.value.startLine
              && forall j :: i < j < n ==> lines[j].kind != Some(Opening)
  {
    hide Run;
    OneMoreStep(lines, n);
    if lines[n - 1].kind != Some(Opening) {
      OpenIsLastOpening(lines, n - 1);
    }
  }

  lemma OneMoreStep(lines: seq<Seen>, n: nat)
    requires n <= |lines| && Run(START, lines[..n]).Ok? && Run(START, lines[..n]).value.open.Some?
    ensures n > 0 && Run(START, lines[..n - 1]).Ok?
    ensures Run(START, lines[..n]) == Step(Run(START, lines[..n - 1]).value, lines[n - 1])
  {
    if n > 0 {
      assert lines[..n] == lines[..n - 1] + [lines[n - 1]];
      RunAppend(START, lines[..n - 1], [lines[n - 1]]);
      assert [lines[n - 1]][1..] == [];
    }
  }

  lemma UnterminatedNamesOpening(bytes: ByteString, size: nat)
    requires Review(bytes, size).Err? && Review(bytes, size).error.Unterminated?
    ensures size > 0
    ensures var lines, n := LinesOf(bytes, size), Review(bytes, size).error.line;
            && 0 < n <= |lines| && lines[n - 1].kind == Some(Opening)
            && forall j :: n <= j < |lines| ==> lines[j].kind != Some(Opening)
  {
    hide ValidUtf8, SplitInclusive, Run, SeenLines;
    var lines := LinesOf(bytes, size);
    assert lines[..|lines|] == lines;
    NotUnterminated(lines);
    OpenIsLastOpening(lines, |lines|);
    var i :| 0 <= i < |lines| && lines[i].kind == Some(Opening)
      && lines[i].number == Review(bytes, size).error.line
      && forall j :: i < j < |lines| ==> lines[j].kind != Some(Opening);
    NumbersCount(bytes, size, i);
  }

  lemma NotUnterminated(lines: seq<Seen>)
    ensures Run(START, lines).Err? ==> !Run(START, lines).error.Unterminated?
  {
    hide Run;
    if Run(START, lines).Err? {
      var i := RunFailsAt(START, lines);
    }
  }

  /** The limits come first, in this order. */
  lemma LimitsComeFirst(bytes: ByteString, size: nat)
    ensures Review(bytes, size) == Err(InputLimit) <==> |bytes| > 8 * 1024 * 1024
    ensures Review(bytes, size) == Err(MarkerSize) <==> |bytes| <= 8 * 1024 * 1024 && !(1 <= size <= 128)
    ensures Review(bytes, size) == Err(InvalidUtf8) <==>
            |bytes| <= 8 * 1024 * 1024 && 1 <= size <= 128 && !ValidUtf8(bytes)
  {
    hide ValidUtf8, SplitInclusive, Run, SeenLines;
    if 1 <= size <= MAX_MARKER_SIZE {
      NoLimitInside(LinesOf(bytes, size));
    }
  }

  lemma NoLimitInside(lines: seq<Seen>)
    ensures Run(START, lines).Err? ==> Run(START, lines).error.InvalidMarkers? || Run(START, lines).error.RegionLimit?
  {
    hide Run;
    if Run(START, lines).Err? {
      var i := RunFailsAt(START, lines);
    }
  }

  // ----- numbering and byte-order mark

  /** Regions are numbered from zero in order. */
  lemma {:induction false} RegionsAreNumbered(state: State, lines: seq<Seen>, i: nat)
    requires Run(state, lines).Ok? && i < |Run(state, lines).value.regions|
    requires forall j :: 0 <= j < |state.regions| ==> state.regions[j].id == "conflict." + Text.Decimal(j)
    ensures Run(state, lines).value.regions[i].id == "conflict." + Text.Decimal(i)
    decreases |lines|
  {
    if lines != [] {
      RegionsAreNumbered(Step(state, lines[0]).value, lines[1..], i);
    }
  }

  /** Only a mark at the very start of the source is skipped. */
  lemma BomIsSkipped(raw: ByteString, first: bool)
    ensures BomLength(raw, first) == if first && |raw| >= 3 && raw[..3] == [0xEF, 0xBB, 0xBF] then 3 else 0
  {
    var end := ContentAndEnd(raw);
    if |raw| >= 3 && raw[..3] == BOM {
      assert raw[0] == 0xEF && raw[1] == 0xBB && raw[2] == 0xBF;
    }
  }
}
