/** Two-way rendering: all current bytes in order, with incoming-only owners spliced in. */
module Directional {
  import opened Wrappers
  import opened Text
  import opened Bytes

  datatype SourceRole = Source | Before | After | Incoming | Current | Base | Ours | Theirs | Output

  /** An immutable source with its identity. */
  datatype SourceDocument = SourceDocument(sourceId: string, role: SourceRole, bytes: ByteString)

  datatype Segment = Segment(
    id: string,
    sourceId: string,
    role: SourceRole,
    sourceRange: ByteRange,
    outputRange: ByteRange,
    sha256: string)

  type Digest = ByteString -> string

  datatype Pair = Pair(incoming: SourceDocument, current: SourceDocument) {
    predicate Distinguished() {
      incoming.role == Incoming && current.role == Current && incoming.sourceId != current.sourceId
    }

    function Named(role: SourceRole): Option<SourceDocument> {
      match role
      case Incoming => Some(incoming)
      case Current => Some(current)
      case _ => None
    }
  }

  // ----- the independent checker

  function Cursor(segments: seq<Segment>, k: nat): nat
    requires k <= |segments|
  {
    if k == 0 then 0 else segments[k - 1].outputRange.end
  }

  /** How much of the current source the first `k` segments retain. */
  function CurrentCursor(segments: seq<Segment>, k: nat): nat
    requires k <= |segments|
  {
    if k == 0 then 0
    else if segments[k - 1].role == Current then segments[k - 1].sourceRange.end
    else CurrentCursor(segments, k - 1)
  }

  /** An incoming stretch, and how much of the current source stands before it. */
  datatype Spot = Spot(range: ByteRange, offset: nat)

  /** The incoming stretches among the first `k` segments, in output order. */
  function Spots(segments: seq<Segment>, k: nat): seq<Spot>
    requires k <= |segments|
  {
    if k == 0 then []
    else
      var last := segments[k - 1];
      Spots(segments, k - 1)
      + if last.role == Incoming then [Spot(last.sourceRange, CurrentCursor(segments, k - 1))] else []
  }

  predicate PartitionHolds(segments: seq<Segment>, k: nat)
    requires k < |segments|
  {
    && segments[k].id != ""
    && (forall j :: 0 <= j < k ==> segments[j].id != segments[k].id)
    && segments[k].outputRange.start == Cursor(segments, k) < segments[k].outputRange.end
    && segments[k].sourceRange.start < segments[k].sourceRange.end
  }

  predicate OriginHolds(output: ByteString, pair: Pair, segment: Segment, sha: Digest) {
    var source := pair.Named(segment.role);
    && source.Some?
    && segment.sourceId == source.value.sourceId
    && var original := Get(source.value.bytes, segment.sourceRange);
       && original.Some?
       && Get(output, segment.outputRange) == original
       && segment.sha256 == sha(original.value)
  }

  predicate SegmentHolds(output: ByteString, pair: Pair, segments: seq<Segment>, k: nat, sha: Digest)
    requires k < |segments|
  {
    && PartitionHolds(segments, k)
    && OriginHolds(output, pair, segments[k], sha)
    && (segments[k].role == Current ==> segments[k].sourceRange.start == CurrentCursor(segments, k))
  }

  predicate SegmentsHold(output: ByteString, pair: Pair, segments: seq<Segment>, sha: Digest) {
    && pair.Distinguished()
    && (forall k :: 0 <= k < |segments| ==> SegmentHolds(output, pair, segments, k, sha))
    && Cursor(segments, |segments|) == |output|
    && CurrentCursor(segments, |segments|) == |pair.current.bytes|
  }

  /** `verify_directional_segments` accepts exactly the segments that hold. */
  method VerifyDirectionalSegments(output: ByteString, pair: Pair, segments: seq<Segment>, sha: Digest)
    returns (ok: bool)
    ensures ok <==> SegmentsHold(output, pair, segments, sha)
  {
    if pair.incoming.role != Incoming || pair.current.role != Current
       || pair.incoming.sourceId == pair.current.sourceId {
      return false;
    }
    var ids: set<string> := {};
    var cursor, currentCursor := 0, 0;
    for k := 0 to |segments|
      invariant ids == set j | 0 <= j < k :: segments[j].id
      invariant cursor == Cursor(segments, k) && currentCursor == CurrentCursor(segments, k)
      invariant forall j :: 0 <= j < k ==> SegmentHolds(output, pair, segments, j, sha)
    {
      var segment := segments[k];
      if segment.id == "" || segment.id in ids || segment.outputRange.start != cursor
         || segment.outputRange.end <= cursor || segment.sourceRange.start >= segment.sourceRange.end {
        assert !SegmentHolds(output, pair, segments, k, sha);
        return false;
      }
      ids := ids + {segment.id};
      var source := pair.Named(segment.role);
      if source.None? || segment.sourceId != source.value.sourceId {
        assert !SegmentHolds(output, pair, segments, k, sha);
        return false;
      }
      var original := Get(source.value.bytes, segment.sourceRange);
      var rendered := Get(output, segment.outputRange);
      if original.None? || rendered.None? || original != rendered || segment.sha256 != sha(original.value) {
        assert !SegmentHolds(output, pair, segments, k, sha);
        return false;
      }
      if segment.role == Current {
        if segment.sourceRange.start != currentCursor {
          assert !SegmentHolds(output, pair, segments, k, sha);
          return false;
        }
        currentCursor := segment.sourceRange.end;
      }
      cursor := segment.outputRange.end;
    }
    return cursor == |output| && currentCursor == |pair.current.bytes|;
  }

  // ----- what accepted segments mean

  /** The output without the stretches that came from elsewhere than the current source. */
  function RetainedCurrent(output: ByteString, segments: seq<Segment>): ByteString {
    if segments == [] then []
    else
      var last := segments[|segments| - 1];
      var slice := Get(output, last.outputRange);
      RetainedCurrent(output, segments[..|segments| - 1])
      + if last.role == Current && slice.Some? then slice.value else []
  }

  lemma {:induction false} RetainedUpTo(output: ByteString, pair: Pair, segments: seq<Segment>, k: nat, sha: Digest)
    requires k <= |segments|
    requires forall j :: 0 <= j < k ==> SegmentHolds(output, pair, segments, j, sha)
    ensures CurrentCursor(segments, k) <= |pair.current.bytes|
    ensures RetainedCurrent(output, segments[..k]) == pair.current.bytes[..CurrentCursor(segments, k)]
  {
    if k > 0 {
      RetainedUpTo(output, pair, segments, k - 1, sha);
      assert SegmentHolds(output, pair, segments, k - 1, sha);
      assert segments[..k][..k - 1] == segments[..k - 1];
    }
  }

  /** Directional conservation: deleting the incoming stretches leaves exactly the current bytes. */
  lemma CurrentIsConserved(output: ByteString, pair: Pair, segments: seq<Segment>, sha: Digest)
    requires SegmentsHold(output, pair, segments, sha)
    ensures RetainedCurrent(output, segments) == pair.current.bytes
  {
    RetainedUpTo(output, pair, segments, |segments|, sha);
    assert segments[..|segments|] == segments;
  }

  /** The stretches of accepted segments tile the output from end to end. */
  lemma {:induction false} SegmentsTile(output: ByteString, pair: Pair, segments: seq<Segment>, i: nat, j: nat,
                                        sha: Digest)
    requires SegmentsHold(output, pair, segments, sha) && i < j < |segments|
    ensures segments[i].outputRange.end <= segments[j].outputRange.start
    ensures segments[i].role == Current && segments[j].role == Current ==>
              segments[i].sourceRange.end <= segments[j].sourceRange.start
    decreases j
  {
    assert SegmentHolds(output, pair, segments, j, sha);
    assert SegmentHolds(output, pair, segments, j - 1, sha);
    if i < j - 1 {
      SegmentsTile(output, pair, segments, i, j - 1, sha);
    }
    if segments[i].role == Current {
      CurrentCursorGrows(output, pair, segments, i + 1, j, sha);
    }
  }

  lemma {:induction false} CurrentCursorGrows(output: ByteString, pair: Pair, segments: seq<Segment>, i: nat, j: nat,
                                              sha: Digest)
    requires SegmentsHold(output, pair, segments, sha) && i <= j <= |segments|
    ensures CurrentCursor(segments, i) <= CurrentCursor(segments, j)
    decreases j
  {
    if i < j {
      CurrentCursorGrows(output, pair, segments, i, j - 1, sha);
      assert SegmentHolds(output, pair, segments, j - 1, sha);
    }
  }

  // ----- the producer

  const FRAGMENT := "directional-fragment-"

  /** The output text and its segments, growing together. */
  class RenderBuffer {
    var output: ByteString
    var segments: seq<Segment>

    constructor ()
      ensures output == [] && segments == []
    {
      output, segments := [], [];
    }

    /** `append`: copy a slice of a source and record it; an empty slice leaves no trace. */
    method Append(source: SourceDocument, range: ByteRange, sha: Digest)
      requires range.start <= range.end <= |source.bytes|
      modifies this
      ensures var bytes := source.bytes[range.start..range.end];
              && output == old(output) + bytes
              && segments == old(segments) +
                 if bytes == [] then []
                 else [Segment(Numbered(FRAGMENT, |old(segments)|), source.sourceId, source.role, range,
                               ByteRange(|old(output)|, |output|), sha(bytes))]
    {
      if range.start == range.end {
        return;
      }
      var bytes := source.bytes[range.start..range.end];
      var start := |output|;
      output := output + bytes;
      segments := segments + [Segment(Numbered(FRAGMENT, |segments|), source.sourceId, source.role, range,
                                      ByteRange(start, |output|), sha(bytes))];
    }
  }

  /** Everything rendered so far is accounted for, and the current source is retained up to `current`. */
  ghost predicate Accounts(output: ByteString, segments: seq<Segment>, pair: Pair, current: nat, sha: Digest) {
    && (forall k :: 0 <= k < |segments| ==> SegmentHolds(output, pair, segments, k, sha))
    && (forall k :: 0 <= k < |segments| ==> segments[k].id == Numbered(FRAGMENT, k))
    && Cursor(segments, |segments|) == |output|
    && CurrentCursor(segments, |segments|) == current
  }

  lemma {:induction false} CursorsOfPrefix(segments: seq<Segment>, segment: Segment, k: nat)
    requires k <= |segments|
    ensures Cursor(segments + [segment], k) == Cursor(segments, k)
    ensures CurrentCursor(segments + [segment], k) == CurrentCursor(segments, k)
  {
    if k > 0 {
      CursorsOfPrefix(segments, segment, k - 1);
    }
  }

  lemma {:induction false} SpotsOfPrefix(segments: seq<Segment>, segment: Segment, k: nat)
    requires k <= |segments|
    ensures Spots(segments + [segment], k) == Spots(segments, k)
  {
    if k > 0 {
      SpotsOfPrefix(segments, segment, k - 1);
      CursorsOfPrefix(segments, segment, k - 1);
    }
  }

  lemma AppendAccounts(output: ByteString, segments: seq<Segment>, pair: Pair, current: nat, sha: Digest,
                       source: SourceDocument, range: ByteRange)
    requires pair.Distinguished() && Accounts(output, segments, pair, current, sha)
    requires source == pair.incoming || (source == pair.current && range.start == current)
    requires range.start < range.end <= |source.bytes|
    ensures var bytes := source.bytes[range.start..range.end];
            var segment := Segment(Numbered(FRAGMENT, |segments|), source.sourceId, source.role, range,
                                   ByteRange(|output|, |output + bytes|), sha(bytes));
            Accounts(output + bytes, segments + [segment], pair,
                     if source.role == Current then range.end else current, sha)
  {
    var bytes := source.bytes[range.start..range.end];
    var segment := Segment(Numbered(FRAGMENT, |segments|), source.sourceId, source.role, range,
                           ByteRange(|output|, |output + bytes|), sha(bytes));
    var longer, all := output + bytes, segments + [segment];
    forall k | 0 <= k < |all| ensures SegmentHolds(longer, pair, all, k, sha) {
      CursorsOfPrefix(segments, segment, k);
      if k < |segments| {
        assert SegmentHolds(output, pair, segments, k, sha);
        var stretch := segments[k].outputRange;
        assert longer[stretch.start..stretch.end] == output[stretch.start..stretch.end];
      } else {
        forall j | 0 <= j < k ensures all[j].id != all[k].id {
          NumberedInjective(FRAGMENT, j, k);
        }
        assert longer[|output|..|longer|] == bytes;
      }
    }
    CursorsOfPrefix(segments, segment, |segments|);
  }
}
