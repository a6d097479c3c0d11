/** Owners as complete physical lines, and the layout left between them. */
module PhysicalLines {
  import opened Wrappers
  import opened Sequences
  import opened Bytes
  import opened Documents

  datatype LineFault =
    | StartsBeyondSource(path: string)
    | EndsBeyondSource(path: string)
    | SpanOutsideLines(path: string)
    | SharesLine(path: string)

  /** The offsets that follow a newline, in order. */
  function NewlineEnds(s: ByteString): (ends: seq<nat>)
    ensures forall k :: 0 <= k < |ends| ==> 0 < ends[k] <= |s| && s[ends[k] - 1] == NEWLINE
  {
    if s == [] then []
    else NewlineEnds(s[..|s| - 1]) + (if s[|s| - 1] == NEWLINE then [|s|] else [])
  }

  /** The offset at which each line starts; text that ends in a newline starts one more, empty line. */
  function LineStarts(s: ByteString): (starts: seq<nat>)
    ensures forall k :: 0 <= k < |starts| ==>
              starts[k] <= |s| && (k > 0 ==> starts[k] > 0 && s[starts[k] - 1] == NEWLINE)
    ensures |starts| > 0 && starts[0] == 0
  {
    [0] + NewlineEnds(s)
  }

  /** The end of the line that starts at `from`, newline included. */
  function LineEndFrom(s: ByteString, from: nat): (end: nat)
    requires from <= |s|
    ensures from <= end <= |s|
    decreases |s| - from
  {
    if from == |s| then from
    else if s[from] == NEWLINE then from + 1
    else LineEndFrom(s, from + 1)
  }

  /** The byte range of the complete lines an owner declares, unless its bytes do not fit in them. */
  function PhysicalLineRange(doc: Document, owner: Owner): (r: Result<ByteRange, LineFault>)
    ensures r.Ok? ==> r.value.start <= owner.start && owner.end <= r.value.end
    ensures r.Ok? ==> r.value.start <= |doc.source| && r.value.end <= |doc.source|
  {
    var starts := LineStarts(doc.source);
    var first := if owner.startLine == 0 then 0 else owner.startLine - 1;
    var last := if owner.endLine == 0 then 0 else owner.endLine - 1;
    if first >= |starts| then Err(StartsBeyondSource(owner.path))
    else if last >= |starts| then Err(EndsBeyondSource(owner.path))
    else
      var end := LineEndFrom(doc.source, starts[last]);
      if owner.start < starts[first] || owner.end > end then Err(SpanOutsideLines(owner.path))
      else Ok(ByteRange(starts[first], end))
  }

  // ----- line offsets

  function Lines(doc: Document): seq<ByteString> {
    SplitInclusive(doc.source, NEWLINE)
  }

  function Min(a: nat, b: nat): nat {
    if a < b then a else b
  }

  ghost predicate OffsetsAgree(starts: seq<nat>, lines: seq<ByteString>) {
    |starts| <= |lines| + 1 && forall k :: 0 <= k < |starts| ==> starts[k] == Offset(lines, k)
  }

  predicate EndsLine(s: ByteString) {
    s == [] || s[|s| - 1] == NEWLINE
  }

  /** The last line of a text, set apart. */
  lemma LastLine(s: ByteString)
    requires s != []
    ensures var lines := SplitInclusive(s, NEWLINE);
            var init, last := lines[..|lines| - 1], lines[|lines| - 1];
            && lines == init + [last] && s == Flatten(init) + last
            && AreLines(lines, NEWLINE) && last[|last| - 1] == s[|s| - 1]
  {
    var lines := SplitInclusive(s, NEWLINE);
    SplitYieldsLines(s, NEWLINE);
    FlattenSnoc(lines[..|lines| - 1], lines[|lines| - 1]);
    assert lines == lines[..|lines| - 1] + [lines[|lines| - 1]];
  }

  /** After a newline, one more byte opens a line. */
  lemma SplitOpens(s: ByteString, b: Byte)
    requires EndsLine(s)
    ensures SplitInclusive(s + [b], NEWLINE) == SplitInclusive(s, NEWLINE) + [[b]]
  {
    if s != [] {
      LastLine(s);
    }
    SplitYieldsLines(s, NEWLINE);
    SplitSnocLine(SplitInclusive(s, NEWLINE), [b], NEWLINE);
  }

  /** Anywhere else, it extends the last line. */
  lemma SplitExtends(s: ByteString, b: Byte)
    requires !EndsLine(s)
    ensures var lines := SplitInclusive(s, NEWLINE);
            SplitInclusive(s + [b], NEWLINE) == lines[..|lines| - 1] + [lines[|lines| - 1] + [b]]
  {
    LastLine(s);
    var lines := SplitInclusive(s, NEWLINE);
    var init, last := lines[..|lines| - 1], lines[|lines| - 1];
    ExtendedIsLine(last, b);
    SplitSnocLine(init, last + [b], NEWLINE);
    assert Flatten(init) + (last + [b]) == s + [b];
  }

  lemma ExtendedIsLine(line: ByteString, b: Byte)
    requires IsLine(line, NEWLINE) && !IsTerminated(line, NEWLINE)
    ensures IsLine(line + [b], NEWLINE)
  {
    assert line == line[..|line| - 1] + [line[|line| - 1]];
    assert (line + [b])[..|line|] == line;
  }

  lemma OffsetOfPrefix(init: seq<ByteString>, a: seq<ByteString>, b: seq<ByteString>, k: nat)
    requires k <= |init|
    ensures Offset(init + a, k) == Offset(init + b, k)
  {
    assert (init + a)[..k] == init[..k] == (init + b)[..k];
  }

  /** Lines that are started keep their offsets when the text grows. */
  lemma OffsetSurvives(t: ByteString, b: Byte, k: nat)
    requires k <= |SplitInclusive(t, NEWLINE)| && (EndsLine(t) || k < |SplitInclusive(t, NEWLINE)|)
    ensures k <= |SplitInclusive(t + [b], NEWLINE)|
    ensures Offset(SplitInclusive(t + [b], NEWLINE), k) == Offset(SplitInclusive(t, NEWLINE), k)
  {
    var before := SplitInclusive(t, NEWLINE);
    if EndsLine(t) {
      SplitOpens(t, b);
      assert before + [] == before;
      OffsetOfPrefix(before, [], [[b]], k);
    } else {
      SplitExtends(t, b);
      var n := |before| - 1;
      assert before == before[..n] + [before[n]];
      OffsetOfPrefix(before[..n], [before[n]], [before[n] + [b]], k);
    }
  }

  ghost predicate StartsRight(s: ByteString) {
    var lines := SplitInclusive(s, NEWLINE);
    OffsetsAgree(LineStarts(s), lines) && |LineStarts(s)| == |lines| + if EndsLine(s) then 1 else 0
  }

  /** The line starts are the offsets of the lines, and of the empty line after a final newline. */
  lemma {:induction false} LineStartsAreOffsets(s: ByteString)
    ensures StartsRight(s)
  {
    if s != [] {
      hide StartsRight;
      var t := s[..|s| - 1];
      LineStartsAreOffsets(t);
      StartsStayRight(t, s[|s| - 1]);
      assert s == t + [s[|s| - 1]];
    }
  }

  lemma StartsStayRight(t: ByteString, b: Byte)
    requires StartsRight(t)
    ensures StartsRight(t + [b])
  {
    hide SplitInclusive, Flatten, LineStarts;
    var s := t + [b];
    StartsGrow(t, b);
    forall k | 0 <= k < |LineStarts(t)|
      ensures k <= |SplitInclusive(s, NEWLINE)| && LineStarts(s)[k] == Offset(SplitInclusive(s, NEWLINE), k)
    {
      OffsetSurvives(t, b, k);
    }
    SplitYieldsLines(s, NEWLINE);
    OffsetEnd(SplitInclusive(s, NEWLINE));
  }

  lemma StartsGrow(t: ByteString, b: Byte)
    ensures LineStarts(t + [b]) == LineStarts(t) + if b == NEWLINE then [|t| + 1] else []
    ensures |SplitInclusive(t + [b], NEWLINE)| == |SplitInclusive(t, NEWLINE)| + if EndsLine(t) then 1 else 0
  {
    hide SplitInclusive;
    assert (t + [b])[..|t|] == t;
    if EndsLine(t) {
      SplitOpens(t, b);
    } else {
      SplitExtends(t, b);
    }
  }

  /** A line ends where the next one starts. */
  lemma LineEndIsNextOffset(s: ByteString, k: nat)
    requires k <= |SplitInclusive(s, NEWLINE)|
    requires Offset(SplitInclusive(s, NEWLINE), k) <= |s|
    ensures var lines := SplitInclusive(s, NEWLINE);
            LineEndFrom(s, Offset(lines, k)) == Offset(lines, Min(k + 1, |lines|))
  {
    var lines := SplitInclusive(s, NEWLINE);
    SplitYieldsLines(s, NEWLINE);
    OffsetEnd(lines);
    if k < |lines| {
      OffsetNext(lines, k);
      FlattenSlice(lines, k, |lines|);
      assert lines[k..|lines|] == lines[k..] == [lines[k]] + lines[k + 1..];
      assert s[Offset(lines, k)..] == lines[k] + Flatten(lines[k + 1..]);
      FirstIndexInLine(lines[k], Flatten(lines[k + 1..]), NEWLINE);
    }
    LineEndIsFirstNewline(s, Offset(lines, k));
  }

  lemma {:induction false} LineEndIsFirstNewline(s: ByteString, from: nat)
    requires from <= |s|
    ensures var i := FirstIndex(s[from..], NEWLINE);
            LineEndFrom(s, from) == if i < |s| - from then from + i + 1 else |s|
    decreases |s| - from
  {
    if from < |s| && s[from] != NEWLINE {
      LineEndIsFirstNewline(s, from + 1);
      assert s[from..][1..] == s[from + 1..];
    }
  }

  lemma StartIsOffset(doc: Document, k: nat)
    requires k < |LineStarts(doc.source)|
    ensures k <= |Lines(doc)| && LineStarts(doc.source)[k] == Offset(Lines(doc), k)
    ensures k == |Lines(doc)| ==> LineStarts(doc.source)[k] == |doc.source|
  {
    hide SplitInclusive, LineStarts;
    LineStartsAreOffsets(doc.source);
    SplitYieldsLines(doc.source, NEWLINE);
    OffsetEnd(Lines(doc));
  }

  /** `PhysicalLineRange` covers lines `startLine .. endLine`, counted from one. */
  lemma PhysicalRangeIsLines(doc: Document, owner: Owner)
    requires PhysicalLineRange(doc, owner).Ok? && 1 <= owner.startLine <= owner.endLine
    requires owner.start < owner.end <= |doc.source|
    ensures owner.startLine <= |Lines(doc)|
    ensures var range := PhysicalLineRange(doc, owner).value;
            && range.start == Offset(Lines(doc), owner.startLine - 1)
            && range.end == Offset(Lines(doc), Min(owner.endLine, |Lines(doc)|))
            && range.start <= owner.start < owner.end <= range.end <= |doc.source|
  {
    hide NewlineEnds, SplitInclusive, LineEndFrom;
    var starts, first, last := LineStarts(doc.source), owner.startLine - 1, owner.endLine - 1;
    StartIsOffset(doc, first);
    StartIsOffset(doc, last);
    LineEndIsNextOffset(doc.source, last);
    assert starts[first] <= owner.start < |doc.source|;
  }

  /** In text, line ranges cut at character boundaries. */
  lemma LineRangesAreSliceable(doc: Document, owner: Owner)
    requires ValidUtf8(doc.source) && PhysicalLineRange(doc, owner).Ok?
    ensures var range := PhysicalLineRange(doc, owner).value;
            IsCharBoundary(doc.source, range.start) && IsCharBoundary(doc.source, range.end)
  {
    hide ValidUtf8, LineEndFrom, NewlineEnds;
    var s := doc.source;
    forall k | 0 <= k < |LineStarts(s)| ensures IsCharBoundary(s, LineStarts(s)[k]) {
      if k > 0 {
        AsciiEndsCharacter(s, LineStarts(s)[k]);
      }
    }
    var range := PhysicalLineRange(doc, owner).value;
    var last := if owner.endLine == 0 then 0 else owner.endLine - 1;
    LineEndFollowsNewline(s, LineStarts(s)[last]);
    if 0 < range.end < |s| {
      AsciiEndsCharacter(s, range.end);
    }
  }

  lemma {:induction false} LineEndFollowsNewline(s: ByteString, from: nat)
    requires from <= |s|
    ensures LineEndFrom(s, from) < |s| ==> LineEndFrom(s, from) > 0 && s[LineEndFrom(s, from) - 1] == NEWLINE
    decreases |s| - from
  {
    if from < |s| && s[from] != NEWLINE {
      LineEndFollowsNewline(s, from + 1);
    }
  }
}
