/** The layout between complete owner lines, for all owners or for the stable ones only. */
module LineLayout {
  import opened Wrappers
  import opened Sequences
  import opened Bytes
  import opened Documents
  import opened PhysicalLines

  // ----- line ranges of a document's owners

  predicate HasLines(doc: Document, k: nat)
    requires k < |doc.owners|
  {
    PhysicalLineRange(doc, doc.owners[k]).Ok?
  }

  function LineRange(doc: Document, k: nat): ByteRange
    requires k < |doc.owners| && HasLines(doc, k)
  {
    PhysicalLineRange(doc, doc.owners[k]).value
  }

  function PriorLineEnd(doc: Document, k: nat): nat
    requires k <= |doc.owners| && (k > 0 ==> HasLines(doc, k - 1))
  {
    if k == 0 then 0 else LineRange(doc, k - 1).end
  }

  /** Owner `k` has complete lines, and they start after those of the owner before it. */
  predicate SeparateAt(doc: Document, k: nat)
    requires k < |doc.owners|
  {
    && HasLines(doc, k)
    && (k > 0 ==> HasLines(doc, k - 1))
    && PriorLineEnd(doc, k) <= LineRange(doc, k).start
  }

  /** Every owner has complete lines of its own. */
  predicate LinesSeparate(doc: Document) {
    forall k :: 0 <= k < |doc.owners| ==> SeparateAt(doc, k)
  }

  /** The bytes between the lines of owner `k - 1` and those of owner `k`. */
  function LineGap(doc: Document, k: nat): ByteString
    requires k <= |doc.owners| && (k > 0 ==> HasLines(doc, k - 1)) && (k < |doc.owners| ==> SeparateAt(doc, k))
  {
    var end := if k == |doc.owners| then |doc.source| else LineRange(doc, k).start;
    doc.source[PriorLineEnd(doc, k)..end]
  }

  /** The gaps in front of the first `k` owners. */
  function LeadingGaps(doc: Document, k: nat): (gaps: seq<ByteString>)
    requires k <= |doc.owners| && forall j :: 0 <= j < k ==> SeparateAt(doc, j)
    ensures |gaps| == k
  {
    if k == 0 then []
    else
      assert SeparateAt(doc, k - 1);
      LeadingGaps(doc, k - 1) + [LineGap(doc, k - 1)]
  }

  /** One gap in front of each owner, and the suffix. */
  function LineGaps(doc: Document): (gaps: seq<ByteString>)
    requires LinesSeparate(doc)
    ensures |gaps| == |doc.owners| + 1
  {
    var n := |doc.owners|;
    assert n > 0 ==> SeparateAt(doc, n - 1);
    LeadingGaps(doc, n) + [LineGap(doc, n)]
  }

  // ----- layout around the stable owners

  /** The last of the first `i` owners that is stable, or -1. */
  function LastStable(stable: seq<bool>, i: nat): (p: int)
    requires i <= |stable|
    ensures -1 <= p < i
    ensures p >= 0 ==> stable[p]
    ensures forall j :: p < j < i ==> !stable[j]
  {
    if i == 0 then -1 else if stable[i - 1] then i - 1 else LastStable(stable, i - 1)
  }

  /** All gaps since the last stable owner, run together. */
  function Pending(gaps: seq<ByteString>, stable: seq<bool>, i: nat): ByteString
    requires i <= |stable| && i <= |gaps|
  {
    Flatten(gaps[LastStable(stable, i) + 1..i])
  }

  /** One segment per stable owner: the gaps between it and the stable owner before it. */
  function StableSegments(gaps: seq<ByteString>, stable: seq<bool>, i: nat): seq<ByteString>
    requires i <= |stable| && i <= |gaps|
  {
    if i == 0 then []
    else if !stable[i - 1] then StableSegments(gaps, stable, i - 1)
    else StableSegments(gaps, stable, i - 1) + [Flatten(gaps[LastStable(stable, i - 1) + 1..i])]
  }

  /** After the last stable owner only the suffix counts; without a stable owner, all gaps do. */
  function StableCut(gaps: seq<ByteString>, stable: seq<bool>): seq<ByteString>
    requires |gaps| == |stable| + 1
  {
    var n := |stable|;
    StableSegments(gaps, stable, n) + [if LastStable(stable, n) >= 0 then gaps[n] else Flatten(gaps)]
  }

  function StableFlags(doc: Document, ids: set<string>): seq<bool> {
    seq(|doc.owners|, k requires 0 <= k < |doc.owners| => doc.owners[k].id in ids)
  }

  function StableLayout(doc: Document, ids: set<string>): seq<ByteString>
    requires LinesSeparate(doc)
  {
    StableCut(LineGaps(doc), StableFlags(doc, ids))
  }

  lemma {:induction false} StableSegmentsOfPrefix(gaps: seq<ByteString>, more: seq<ByteString>, stable: seq<bool>,
                                                  i: nat)
    requires i <= |stable| && i <= |gaps|
    ensures StableSegments(gaps + more, stable, i) == StableSegments(gaps, stable, i)
  {
    hide Flatten;
    if i > 0 {
      StableSegmentsOfPrefix(gaps, more, stable, i - 1);
      SliceOfPrefix(gaps, more, LastStable(stable, i - 1) + 1, i);
    }
  }

  /** What one more gap does to the pending text. */
  lemma PendingGrows(gaps: seq<ByteString>, gap: ByteString, stable: seq<bool>)
    requires |gaps| < |stable|
    ensures Flatten((gaps + [gap])[LastStable(stable, |gaps|) + 1..|gaps| + 1]) == Pending(gaps, stable, |gaps|) + gap
  {
    hide Flatten, LastStable;
    var p := LastStable(stable, |gaps|) + 1;
    SliceSnoc(gaps, gap, p);
    FlattenSnoc(gaps[p..|gaps|], gap);
  }

  lemma SegmentCloses(gaps: seq<ByteString>, stable: seq<bool>, n: nat)
    requires n < |gaps| && n < |stable| && stable[n]
    ensures StableSegments(gaps, stable, n + 1) ==
            StableSegments(gaps, stable, n) + [Flatten(gaps[LastStable(stable, n) + 1..n + 1])]
  {
    hide Flatten, LastStable;
  }

  lemma NothingPending(gaps: seq<ByteString>, stable: seq<bool>, n: nat)
    requires n < |gaps| && n < |stable| && stable[n]
    ensures Pending(gaps, stable, n + 1) == []
  {
    assert LastStable(stable, n + 1) == n;
    FlattenNone(gaps[n + 1..n + 1]);
  }

  /** A gap whose owner is stable closes a segment. */
  lemma StableGap(gaps: seq<ByteString>, gap: ByteString, stable: seq<bool>)
    requires |gaps| < |stable| && stable[|gaps|]
    ensures StableSegments(gaps + [gap], stable, |gaps| + 1) ==
            StableSegments(gaps, stable, |gaps|) + [Pending(gaps, stable, |gaps|) + gap]
    ensures Pending(gaps + [gap], stable, |gaps| + 1) == []
  {
    hide *;
    PendingGrows(gaps, gap, stable);
    StableSegmentsOfPrefix(gaps, [gap], stable, |gaps|);
    SegmentCloses(gaps + [gap], stable, |gaps|);
    NothingPending(gaps + [gap], stable, |gaps|);
  }

  lemma SegmentStays(gaps: seq<ByteString>, stable: seq<bool>, n: nat)
    requires n < |gaps| && n < |stable| && !stable[n]
    ensures StableSegments(gaps, stable, n + 1) == StableSegments(gaps, stable, n)
    ensures Pending(gaps, stable, n + 1) == Flatten(gaps[LastStable(stable, n) + 1..n + 1])
  {
    hide Flatten;
  }

  /** A gap whose owner is not stable stays pending. */
  lemma UnstableGap(gaps: seq<ByteString>, gap: ByteString, stable: seq<bool>)
    requires |gaps| < |stable| && !stable[|gaps|]
    ensures StableSegments(gaps + [gap], stable, |gaps| + 1) == StableSegments(gaps, stable, |gaps|)
    ensures Pending(gaps + [gap], stable, |gaps| + 1) == Pending(gaps, stable, |gaps|) + gap
  {
    hide *;
    PendingGrows(gaps, gap, stable);
    StableSegmentsOfPrefix(gaps, [gap], stable, |gaps|);
    SegmentStays(gaps + [gap], stable, |gaps|);
  }

  /** The state of the one-pass accumulation: closed segments, open text, and the two flags. */
  datatype Accumulated = Accumulated(
    segments: seq<ByteString>,
    pending: ByteString,
    stableSeen: bool,
    unstableAfterStable: bool)

  function Accumulate(gaps: seq<ByteString>, stable: seq<bool>): Accumulated
    requires |gaps| <= |stable|
  {
    if gaps == [] then Accumulated([], [], false, false)
    else
      var k := |gaps| - 1;
      var before := Accumulate(gaps[..k], stable);
      var text := before.pending + gaps[k];
      if stable[k] then Accumulated(before.segments + [text], [], true, false)
      else before.(pending := text, unstableAfterStable := before.stableSeen)
  }

  lemma AccumulateNothing(stable: seq<bool>)
    ensures Accumulate([], stable) == Accumulated([], [], false, false)
  {}

  lemma AccumulateOne(gaps: seq<ByteString>, gap: ByteString, stable: seq<bool>)
    requires |gaps| < |stable|
    ensures var before := Accumulate(gaps, stable);
            Accumulate(gaps + [gap], stable) ==
            if stable[|gaps|] then Accumulated(before.segments + [before.pending + gap], [], true, false)
            else before.(pending := before.pending + gap, unstableAfterStable := before.stableSeen)
  {
    assert (gaps + [gap])[..|gaps|] == gaps;
  }

  ghost predicate AccumulatedRight(gaps: seq<ByteString>, stable: seq<bool>, a: Accumulated)
    requires |gaps| <= |stable|
  {
    var k, p := |gaps|, LastStable(stable, |gaps|);
    && a.segments == StableSegments(gaps, stable, k)
    && a.pending == Pending(gaps, stable, k)
    && (a.stableSeen <==> p >= 0)
    && (a.unstableAfterStable <==> 0 <= p < k - 1)
  }

  /** The accumulation computes the segments that the stable owners cut out. */
  lemma {:induction false} AccumulateCuts(gaps: seq<ByteString>, stable: seq<bool>)
    requires |gaps| <= |stable|
    ensures AccumulatedRight(gaps, stable, Accumulate(gaps, stable))
  {
    if gaps != [] {
      var init, last := gaps[..|gaps| - 1], gaps[|gaps| - 1];
      AccumulateCuts(init, stable);
      AccumulateStep(init, last, stable);
      assert gaps == init + [last];
    }
  }

  lemma AccumulateStep(gaps: seq<ByteString>, gap: ByteString, stable: seq<bool>)
    requires |gaps| < |stable| && AccumulatedRight(gaps, stable, Accumulate(gaps, stable))
    ensures AccumulatedRight(gaps + [gap], stable, Accumulate(gaps + [gap], stable))
  {
    hide StableSegments, Pending, Accumulate;
    AccumulateOne(gaps, gap, stable);
    if stable[|gaps|] {
      StableGap(gaps, gap, stable);
    } else {
      UnstableGap(gaps, gap, stable);
    }
  }

  /** The suffix closes the last segment. */
  lemma SuffixCuts(gaps: seq<ByteString>, suffix: ByteString, stable: seq<bool>)
    requires |gaps| == |stable|
    ensures var a := Accumulate(gaps, stable);
            StableCut(gaps + [suffix], stable) ==
            a.segments + [if a.unstableAfterStable then suffix else a.pending + suffix]
  {
    hide Accumulate, StableSegments;
    var n, p := |stable|, LastStable(stable, |stable|);
    AccumulateCuts(gaps, stable);
    StableSegmentsOfPrefix(gaps, [suffix], stable, n);
    if p < 0 {
      assert gaps[0..n] == gaps;
      FlattenSnoc(gaps, suffix);
    } else if p == n - 1 {
      assert gaps[n..n] == [];
      assert Pending(gaps, stable, n) + suffix == suffix;
    }
  }

  /** `layout_segments_for_ids`, with its one-pass accumulation. */
  method LayoutSegmentsForIds(doc: Document, ids: set<string>) returns (r: Result<seq<ByteString>, LineFault>)
    ensures r.Ok? <==> LinesSeparate(doc)
    ensures r.Ok? ==> r.value == StableLayout(doc, ids)
  {
    hide PhysicalLineRange, StableCut, Accumulate;
    AccumulateNothing(StableFlags(doc, ids));
    var cursor := 0;
    var segment: ByteString := [];
    var segments: seq<ByteString> := [];
    var stableSeen, unstableAfterStable := false, false;
    ghost var stable := StableFlags(doc, ids);
    for k := 0 to |doc.owners|
      invariant forall j :: 0 <= j < k ==> SeparateAt(doc, j)
      invariant k > 0 ==> HasLines(doc, k - 1)
      invariant cursor == PriorLineEnd(doc, k) <= |doc.source|
      invariant unstableAfterStable ==> stableSeen
      invariant Accumulate(LeadingGaps(doc, k), stable) ==
                Accumulated(segments, segment, stableSeen, unstableAfterStable)
    {
      var owner := doc.owners[k];
      var ownedLines := PhysicalLineRange(doc, owner);
      if ownedLines.Err? {
        assert !SeparateAt(doc, k);
        return Err(ownedLines.error);
      }
      if ownedLines.value.start < cursor {
        assert !SeparateAt(doc, k);
        return Err(SharesLine(owner.path));
      }
      assert SeparateAt(doc, k);
      AccumulateOne(LeadingGaps(doc, k), LineGap(doc, k), stable);
      segment := segment + doc.source[cursor..ownedLines.value.start];
      if owner.id in ids {
        segments, segment := segments + [segment], [];
        stableSeen, unstableAfterStable := true, false;
      } else if stableSeen {
        unstableAfterStable := true;
      }
      cursor := ownedLines.value.end;
    }
    SuffixCuts(LeadingGaps(doc, |doc.owners|), doc.source[cursor..], stable);
    assert doc.source[cursor..] == LineGap(doc, |doc.owners|);
    if unstableAfterStable {
      segment := doc.source[cursor..];
    } else {
      segment := segment + doc.source[cursor..];
    }
    segments := segments + [segment];
    return Ok(segments);
  }

  // ----- the line view against the byte view

  /** Some owner declares the line with index `line`, that is, number `line + 1`. */
  predicate LineOwned(owners: seq<Owner>, line: nat) {
    exists k :: 0 <= k < |owners| && owners[k].startLine <= line + 1 <= owners[k].endLine
  }

  /** The lines from index `k` on whose numbers lie in no owner. */
  function Unowned(lines: seq<ByteString>, owners: seq<Owner>, k: nat): ByteString
    requires k <= |lines|
    decreases |lines| - k
  {
    if k == |lines| then []
    else (if LineOwned(owners, k) then [] else lines[k]) + Unowned(lines, owners, k + 1)
  }

  /** `unmanaged_source_fingerprint`: the source lines outside every owner. */
  function UnmanagedFingerprint(doc: Document): ByteString {
    Unowned(Lines(doc), doc.owners, 0)
  }

  lemma {:induction false} UnownedRun(lines: seq<ByteString>, owners: seq<Owner>, a: nat, b: nat)
    requires a <= b <= |lines|
    requires forall k :: a <= k < b ==> !LineOwned(owners, k)
    ensures Unowned(lines, owners, a) == Flatten(lines[a..b]) + Unowned(lines, owners, b)
    decreases b - a
  {
    hide LineOwned;
    if a < b {
      UnownedRun(lines, owners, a + 1, b);
      assert lines[a..b][1..] == lines[a + 1..b];
    }
  }

  lemma {:induction false} OwnedRun(lines: seq<ByteString>, owners: seq<Owner>, a: nat, b: nat)
    requires a <= b <= |lines|
    requires forall k :: a <= k < b ==> LineOwned(owners, k)
    ensures Unowned(lines, owners, a) == Unowned(lines, owners, b)
    decreases b - a
  {
    if a < b {
      OwnedRun(lines, owners, a + 1, b);
    }
  }

  /** The index after the last line of the owner before slot `k`. */
  function LinesBefore(doc: Document, k: nat): nat
    requires k <= |doc.owners|
  {
    if k == 0 then 0 else Min(doc.owners[k - 1].endLine, |Lines(doc)|)
  }

  lemma {:induction false} OffsetsIncrease(lines: seq<ByteString>, a: nat, b: nat)
    requires a < b <= |lines| && AreLines(lines, NEWLINE)
    ensures Offset(lines, a) < Offset(lines, b)
    decreases b - a
  {
    OffsetNext(lines, a);
    if a + 1 < b {
      OffsetsIncrease(lines, a + 1, b);
    }
  }

  /** Owner `k` covers line indices `startLine - 1 .. LinesBefore(k + 1)`, after those of owner `k - 1`. */
  lemma OwnerLines(doc: Document, k: nat)
    requires ValidDocument(doc) && LinesSeparate(doc) && k < |doc.owners|
    ensures 1 <= doc.owners[k].startLine <= LinesBefore(doc, k + 1) <= |Lines(doc)|
    ensures LinesBefore(doc, k) < doc.owners[k].startLine
    ensures HasLines(doc, k)
    ensures LineRange(doc, k).start == Offset(Lines(doc), doc.owners[k].startLine - 1)
    ensures LineRange(doc, k).end == Offset(Lines(doc), LinesBefore(doc, k + 1))
  {
    hide PhysicalLineRange, Lines;
    assert SeparateAt(doc, k) && OwnerFits(doc, k);
    PhysicalRangeIsLines(doc, doc.owners[k]);
    if k > 0 {
      assert SeparateAt(doc, k - 1) && OwnerFits(doc, k - 1);
      PhysicalRangeIsLines(doc, doc.owners[k - 1]);
      var a, b := doc.owners[k].startLine - 1, LinesBefore(doc, k);
      if a < b {
        LinesAreLines(doc);
        OffsetsIncrease(Lines(doc), a, b);
      }
    }
  }

  lemma LinesAreLines(doc: Document)
    ensures AreLines(Lines(doc), NEWLINE) && Flatten(Lines(doc)) == doc.source
    ensures Offset(Lines(doc), |Lines(doc)|) == |doc.source|
  {
    SplitYieldsLines(doc.source, NEWLINE);
    OffsetEnd(Lines(doc));
  }

  /** Owners claim their lines in document order. */
  lemma {:induction false} LinesOrdered(doc: Document, i: nat, j: nat)
    requires ValidDocument(doc) && LinesSeparate(doc) && i < j <= |doc.owners|
    ensures LinesBefore(doc, i + 1) <= LinesBefore(doc, j)
    ensures j < |doc.owners| ==> LinesBefore(doc, i + 1) < doc.owners[j].startLine
    decreases j
  {
    if j < |doc.owners| {
      OwnerLines(doc, j);
    }
    if i + 1 < j {
      LinesOrdered(doc, i, j - 1);
      OwnerLines(doc, j - 1);
    }
  }

  /** No owner claims a line inside a gap. */
  lemma GapLinesAreUnowned(doc: Document, k: nat, line: nat)
    requires ValidDocument(doc) && LinesSeparate(doc) && k <= |doc.owners|
    requires LinesBefore(doc, k) <= line < |Lines(doc)|
    requires k < |doc.owners| ==> line + 1 < doc.owners[k].startLine
    ensures !LineOwned(doc.owners, line)
  {
    forall j | 0 <= j < |doc.owners| ensures !(doc.owners[j].startLine <= line + 1 <= doc.owners[j].endLine) {
      if j < k {
        LinesOrdered(doc, j, k);
      } else if k < j {
        LinesOrdered(doc, k, j);
        OwnerLines(doc, k);
      }
    }
  }

  lemma GapIsLines(doc: Document, k: nat)
    requires ValidDocument(doc) && LinesSeparate(doc) && k <= |doc.owners|
    ensures k > 0 ==> HasLines(doc, k - 1)
    ensures var next := if k == |doc.owners| then |Lines(doc)| else doc.owners[k].startLine - 1;
            && LinesBefore(doc, k) <= next <= |Lines(doc)|
            && LineGap(doc, k) == Flatten(Lines(doc)[LinesBefore(doc, k)..next])
  {
    hide PhysicalLineRange, Lines;
    LinesAreLines(doc);
    if k > 0 {
      OwnerLines(doc, k - 1);
      assert SeparateAt(doc, k - 1);
    }
    if k < |doc.owners| {
      OwnerLines(doc, k);
    }
    var next := if k == |doc.owners| then |Lines(doc)| else doc.owners[k].startLine - 1;
    FlattenSlice(Lines(doc), LinesBefore(doc, k), next);
  }

  lemma {:induction false} UnownedFromSlot(doc: Document, k: nat)
    requires ValidDocument(doc) && LinesSeparate(doc) && k <= |doc.owners|
    ensures LinesBefore(doc, k) <= |Lines(doc)|
    ensures Unowned(Lines(doc), doc.owners, LinesBefore(doc, k)) == Flatten(LineGaps(doc)[k..])
    decreases |doc.owners| - k
  {
    hide PhysicalLineRange, Lines;
    var lines, n := Lines(doc), |doc.owners|;
    GapIsLines(doc, k);
    LineGapsAt(doc, k);
    var from, next := LinesBefore(doc, k), if k == n then |lines| else doc.owners[k].startLine - 1;
    forall line | from <= line < next ensures !LineOwned(doc.owners, line) {
      GapLinesAreUnowned(doc, k, line);
    }
    UnownedRun(lines, doc.owners, from, next);
    assert LineGaps(doc)[k..] == [LineGap(doc, k)] + LineGaps(doc)[k + 1..];
    if k < n {
      OwnerLines(doc, k);
      OwnedRun(lines, doc.owners, next, LinesBefore(doc, k + 1));
      UnownedFromSlot(doc, k + 1);
    }
  }

  lemma {:induction false} LeadingGapsAt(doc: Document, m: nat, k: nat)
    requires k < m <= |doc.owners| && forall j :: 0 <= j < m ==> SeparateAt(doc, j)
    ensures (k > 0 ==> HasLines(doc, k - 1)) && LeadingGaps(doc, m)[k] == LineGap(doc, k)
  {
    hide PhysicalLineRange;
    assert SeparateAt(doc, k);
    if k < m - 1 {
      LeadingGapsAt(doc, m - 1, k);
    }
  }

  lemma LineGapsAt(doc: Document, k: nat)
    requires LinesSeparate(doc) && k <= |doc.owners|
    ensures (k > 0 ==> HasLines(doc, k - 1)) && LineGaps(doc)[k] == LineGap(doc, k)
  {
    hide PhysicalLineRange;
    if k < |doc.owners| {
      LeadingGapsAt(doc, |doc.owners|, k);
    } else if k > 0 {
      assert SeparateAt(doc, k - 1);
    }
  }

  /** The layout between complete owner lines is exactly the unmanaged source. */
  lemma LineViewIsByteView(doc: Document)
    requires ValidDocument(doc) && LinesSeparate(doc)
    ensures Flatten(LineGaps(doc)) == UnmanagedFingerprint(doc)
  {
    UnownedFromSlot(doc, 0);
    assert LineGaps(doc)[0..] == LineGaps(doc);
  }

  lemma {:induction false} StableSegmentsFlatten(gaps: seq<ByteString>, stable: seq<bool>, i: nat)
    requires i <= |stable| < |gaps|
    ensures Flatten(StableSegments(gaps, stable, i)) == Flatten(gaps[..LastStable(stable, i) + 1])
  {
    hide Flatten;
    if i == 0 {
      assert gaps[..0] == [];
    } else {
      StableSegmentsFlatten(gaps, stable, i - 1);
      if stable[i - 1] {
        var p := LastStable(stable, i - 1) + 1;
        FlattenSnoc(StableSegments(gaps, stable, i - 1), Flatten(gaps[p..i]));
        assert gaps[..i] == gaps[..p] + gaps[p..i];
        FlattenAppend(gaps[..p], gaps[p..i]);
      }
    }
  }

  /** A stable cut keeps all gaps up to the last stable owner, and the suffix. */
  lemma StableCutFlattens(gaps: seq<ByteString>, stable: seq<bool>)
    requires |gaps| == |stable| + 1
    ensures var n, p := |stable|, LastStable(stable, |stable|);
            Flatten(StableCut(gaps, stable)) ==
            if p < 0 then Flatten(gaps) else Flatten(gaps[..p + 1]) + gaps[n]
  {
    hide Flatten, StableSegments;
    FlattenNone(gaps[..0]);
    var n := |stable|;
    StableSegmentsFlatten(gaps, stable, n);
    FlattenSnoc(StableSegments(gaps, stable, n), if LastStable(stable, n) >= 0 then gaps[n] else Flatten(gaps));
  }

  lemma DroppedGaps(gaps: seq<ByteString>, p: nat, n: nat)
    requires p <= n == |gaps| - 1
    ensures Flatten(gaps) == Flatten(gaps[..p]) + Flatten(gaps[p..n]) + gaps[n]
  {
    hide Flatten;
    assert gaps == gaps[..p] + gaps[p..n] + [gaps[n]];
    FlattenAppend(gaps[..p], gaps[p..n]);
    FlattenSnoc(gaps[..p] + gaps[p..n], gaps[n]);
  }

  /**
   * The layout of a chosen set of owners loses exactly the gaps between the last chosen owner and
   * the suffix; so it is the unmanaged source just when nothing stands there.
   */
  lemma StableLayoutIsUnmanaged(doc: Document, ids: set<string>)
    requires ValidDocument(doc) && LinesSeparate(doc)
    ensures var n, p := |doc.owners|, LastStable(StableFlags(doc, ids), |doc.owners|);
            Flatten(StableLayout(doc, ids)) == UnmanagedFingerprint(doc) <==>
            p < 0 || Flatten(LineGaps(doc)[p + 1..n]) == []
  {
    hide PhysicalLineRange, UnmanagedFingerprint, LineGaps, StableCut, Flatten;
    LineViewIsByteView(doc);
    var gaps, stable, n := LineGaps(doc), StableFlags(doc, ids), |doc.owners|;
    var p := LastStable(stable, n);
    StableCutFlattens(gaps, stable);
    if p >= 0 {
      DroppedGaps(gaps, p + 1, n);
      var kept, dropped := Flatten(gaps[..p + 1]), Flatten(gaps[p + 1..n]);
      assert |kept + gaps[n]| + |dropped| == |Flatten(gaps)|;
    }
  }

  /** The complete lines of each owner. */
  function OwnerLineBytes(doc: Document): (owned: seq<ByteString>)
    requires LinesSeparate(doc) && ValidDocument(doc)
    ensures |owned| == |doc.owners|
  {
    seq(|doc.owners|, k requires 0 <= k < |doc.owners| =>
      assert SeparateAt(doc, k) && OwnerFits(doc, k);
      doc.source[LineRange(doc, k).start..LineRange(doc, k).end])
  }

  lemma {:induction false} LinesWovenUpTo(doc: Document, i: nat)
    requires ValidDocument(doc) && LinesSeparate(doc) && i <= |doc.owners|
    ensures i > 0 ==> HasLines(doc, i - 1)
    ensures PriorLineEnd(doc, i) <= |doc.source|
    ensures Woven(LineGaps(doc), OwnerLineBytes(doc), i) == doc.source[..PriorLineEnd(doc, i)]
  {
    hide PhysicalLineRange, LineGaps;
    if i > 0 {
      LinesWovenUpTo(doc, i - 1);
      LineGapsAt(doc, i - 1);
      assert SeparateAt(doc, i - 1) && OwnerFits(doc, i - 1);
      JoinSlices(doc.source, PriorLineEnd(doc, i - 1), LineRange(doc, i - 1).start, PriorLineEnd(doc, i));
    }
  }

  /** Gaps and complete owner lines partition the source. */
  lemma LinesRebuildSource(doc: Document)
    requires ValidDocument(doc) && LinesSeparate(doc)
    ensures Weave(LineGaps(doc), OwnerLineBytes(doc)) == doc.source
  {
    hide PhysicalLineRange, LineGaps, OwnerLineBytes, Woven;
    LinesWovenUpTo(doc, |doc.owners|);
    LineGapsAt(doc, |doc.owners|);
  }

  /** With every owner chosen, the layout is the unmanaged source. */
  lemma FullLayoutIsUnmanaged(doc: Document)
    requires ValidDocument(doc) && LinesSeparate(doc)
    ensures Flatten(StableLayout(doc, set id | id in OwnerIds(doc))) == UnmanagedFingerprint(doc)
  {
    hide PhysicalLineRange, UnmanagedFingerprint, LineGaps, StableLayout, Unowned;
    var ids, n := set id | id in OwnerIds(doc), |doc.owners|;
    StableLayoutIsUnmanaged(doc, ids);
    if n > 0 {
      assert OwnerIds(doc)[n - 1] in ids;
      assert StableFlags(doc, ids)[n - 1];
      assert LineGaps(doc)[n..n] == [];
    }
  }
}
