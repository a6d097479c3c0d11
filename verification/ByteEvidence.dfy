/** Exact byte-origin records: who wrote each output byte, and the check that nothing else did. */
module ByteEvidence {
  import opened Wrappers
  import opened Sequences
  import opened Text
  import opened Bytes

  datatype SourceRevision = Base | Ours | Theirs

  datatype Segment = Segment(
    id: string,
    revision: SourceRevision,
    sourceRange: ByteRange,
    outputRange: ByteRange,
    sha256: string,
    ownerId: Option<string>)

  datatype EvidenceError =
    | InvalidIdentity
    | InvalidPartition
    | MissingSource
    | InvalidRange
    | ByteMismatch
    | DigestMismatch

  type Sources = map<SourceRevision, ByteString>

  /** The digest is a parameter: nothing here depends on which function it is. */
  type Digest = ByteString -> string

  // ----- the checker

  /** Where segment `k` has to start in the output. */
  function Cursor(segments: seq<Segment>, k: nat): nat
    requires k <= |segments|
  {
    if k == 0 then 0 else segments[k - 1].outputRange.end
  }

  predicate IdentityHolds(segments: seq<Segment>, k: nat)
    requires k < |segments|
  {
    segments[k].id != "" && forall j :: 0 <= j < k ==> segments[j].id != segments[k].id
  }

  predicate PartitionHolds(segments: seq<Segment>, k: nat)
    requires k < |segments|
  {
    Cursor(segments, k) == segments[k].outputRange.start < segments[k].outputRange.end
  }

  function SourceSlice(sources: Sources, segment: Segment): Option<ByteString> {
    if segment.revision in sources then Get(sources[segment.revision], segment.sourceRange) else None
  }

  predicate SegmentHolds(output: ByteString, sources: Sources, segments: seq<Segment>, k: nat, sha: Digest)
    requires k < |segments|
  {
    var original := SourceSlice(sources, segments[k]);
    && IdentityHolds(segments, k)
    && PartitionHolds(segments, k)
    && original.Some?
    && Get(output, segments[k].outputRange) == original
    && sha(original.value) == segments[k].sha256
  }

  predicate EvidenceHolds(output: ByteString, sources: Sources, segments: seq<Segment>, sha: Digest) {
    && (forall k :: 0 <= k < |segments| ==> SegmentHolds(output, sources, segments, k, sha))
    && Cursor(segments, |segments|) == |output|
  }

  /** The error reported for a segment that fails, in the order the checks are made. */
  function SegmentError(output: ByteString, sources: Sources, segments: seq<Segment>, k: nat): EvidenceError
    requires k < |segments|
  {
    var segment := segments[k];
    if !IdentityHolds(segments, k) then InvalidIdentity
    else if !PartitionHolds(segments, k) then InvalidPartition
    else if Get(output, segment.outputRange).None? then InvalidRange
    else if segment.revision !in sources then MissingSource
    else if SourceSlice(sources, segment).None? then InvalidRange
    else if SourceSlice(sources, segment) != Get(output, segment.outputRange) then ByteMismatch
    else DigestMismatch
  }

  /** `verify_source_byte_segments`: accepts exactly the evidence that holds, or names the first failure. */
  method VerifySourceByteSegments(output: ByteString, sources: Sources, segments: seq<Segment>, sha: Digest)
    returns (error: Option<EvidenceError>)
    ensures error.None? <==> EvidenceHolds(output, sources, segments, sha)
    ensures error.Some? ==>
              || (&& (forall k :: 0 <= k < |segments| ==> SegmentHolds(output, sources, segments, k, sha))
                  && error == Some(InvalidPartition))
              || (exists k | 0 <= k < |segments| ::
                    && (forall j :: 0 <= j < k ==> SegmentHolds(output, sources, segments, j, sha))
                    && !SegmentHolds(output, sources, segments, k, sha)
                    && error == Some(SegmentError(output, sources, segments, k)))
  {
    var ids: set<string> := {};
    var cursor := 0;
    for k := 0 to |segments|
      invariant ids == set j | 0 <= j < k :: segments[j].id
      invariant cursor == Cursor(segments, k)
      invariant forall j :: 0 <= j < k ==> SegmentHolds(output, sources, segments, j, sha)
    {
      var segment := segments[k];
      ghost var expected := SegmentError(output, sources, segments, k);
      assert IdentityHolds(segments, k) <==> segment.id != "" && segment.id !in ids;
      if segment.id == "" || segment.id in ids {
        assert !SegmentHolds(output, sources, segments, k, sha) && expected == InvalidIdentity;
        return Some(InvalidIdentity);
      }
      ids := ids + {segment.id};
      var out := segment.outputRange;
      if out.start != cursor || out.end <= out.start {
        assert !SegmentHolds(output, sources, segments, k, sha) && expected == InvalidPartition;
        return Some(InvalidPartition);
      }
      var outputBytes := Get(output, out);
      if outputBytes.None? {
        assert !SegmentHolds(output, sources, segments, k, sha) && expected == InvalidRange;
        return Some(InvalidRange);
      }
      if segment.revision !in sources {
        assert !SegmentHolds(output, sources, segments, k, sha) && expected == MissingSource;
        return Some(MissingSource);
      }
      var sourceBytes := Get(sources[segment.revision], segment.sourceRange);
      if sourceBytes.None? {
        assert !SegmentHolds(output, sources, segments, k, sha) && expected == InvalidRange;
        return Some(InvalidRange);
      }
      if sourceBytes != outputBytes {
        assert !SegmentHolds(output, sources, segments, k, sha) && expected == ByteMismatch;
        return Some(ByteMismatch);
      }
      if sha(sourceBytes.value) != segment.sha256 {
        assert !SegmentHolds(output, sources, segments, k, sha) && expected == DigestMismatch;
        return Some(DigestMismatch);
      }
      cursor := out.end;
    }
    if cursor != |output| {
      return Some(InvalidPartition);
    }
    return None;
  }

  // ----- what accepted evidence means

  predicate NameSources(sources: Sources, segments: seq<Segment>) {
    forall k :: 0 <= k < |segments| ==> SourceSlice(sources, segments[k]).Some?
  }

  /** The source bytes that the segments name, in order. */
  function Origins(sources: Sources, segments: seq<Segment>): seq<ByteString>
    requires NameSources(sources, segments)
  {
    seq(|segments|, k requires 0 <= k < |segments| => SourceSlice(sources, segments[k]).value)
  }

  lemma {:induction false} OriginsUpTo(output: ByteString, sources: Sources, segments: seq<Segment>, k: nat,
                                       sha: Digest)
    requires k <= |segments|
    requires NameSources(sources, segments)
    requires forall j :: 0 <= j < |segments| ==> SegmentHolds(output, sources, segments, j, sha)
    ensures Cursor(segments, k) <= |output|
    ensures Flatten(Origins(sources, segments[..k])) == output[..Cursor(segments, k)]
  {
    if k > 0 {
      OriginsUpTo(output, sources, segments, k - 1, sha);
      assert SegmentHolds(output, sources, segments, k - 1, sha);
      var before, last := Origins(sources, segments[..k - 1]), SourceSlice(sources, segments[k - 1]).value;
      assert Origins(sources, segments[..k]) == before + [last];
      FlattenSnoc(before, last);
    }
  }

  /** Accepted evidence says that the output is the concatenation of the named source slices, and nothing else. */
  lemma EvidenceIsConcatenation(output: ByteString, sources: Sources, segments: seq<Segment>, sha: Digest)
    requires EvidenceHolds(output, sources, segments, sha)
    ensures NameSources(sources, segments)
    ensures output == Flatten(Origins(sources, segments))
  {
    forall k | 0 <= k < |segments| ensures SourceSlice(sources, segments[k]).Some? {
      assert SegmentHolds(output, sources, segments, k, sha);
    }
    OriginsUpTo(output, sources, segments, |segments|, sha);
    assert segments[..|segments|] == segments;
  }

  // ----- the producer

  /** One stretch of source text to be copied to the output. */
  datatype Piece = Piece(revision: SourceRevision, range: ByteRange, ownerId: Option<string>)

  predicate PieceFits(sources: Sources, piece: Piece) {
    piece.revision in sources && piece.range.start <= piece.range.end <= |sources[piece.revision]|
  }

  function PieceBytes(sources: Sources, piece: Piece): ByteString
    requires PieceFits(sources, piece)
  {
    sources[piece.revision][piece.range.start..piece.range.end]
  }

  /** The text that a list of pieces spells. */
  function Rendered(sources: Sources, pieces: seq<Piece>): ByteString
    requires forall k :: 0 <= k < |pieces| ==> PieceFits(sources, pieces[k])
  {
    if pieces == [] then []
    else Rendered(sources, pieces[..|pieces| - 1]) + PieceBytes(sources, pieces[|pieces| - 1])
  }

  const FRAGMENT := "source-fragment-"

  /** The output text and its evidence, growing together. */
  class RenderBuffer {
    var output: ByteString
    var segments: seq<Segment>

    constructor ()
      ensures output == [] && segments == []
    {
      output, segments := [], [];
    }

    /** `append_source_segment`: copy a slice and record its origin; an empty slice leaves no trace. */
    method AppendSourceSegment(source: ByteString, piece: Piece, sha: Digest)
      requires piece.range.start <= piece.range.end <= |source|
      modifies this
      ensures var bytes := source[piece.range.start..piece.range.end];
              && output == old(output) + bytes
              && segments == old(segments) +
                 if bytes == [] then []
                 else [Segment(Numbered(FRAGMENT, |old(segments)|), piece.revision, piece.range,
                               ByteRange(|old(output)|, |output|), sha(bytes), piece.ownerId)]
    {
      if piece.range.start == piece.range.end {
        return;
      }
      var bytes := source[piece.range.start..piece.range.end];
      var start := |output|;
      output := output + bytes;
      segments := segments + [Segment(Numbered(FRAGMENT, |segments|), piece.revision, piece.range,
                                      ByteRange(start, |output|), sha(bytes), piece.ownerId)];
    }
  }

  predicate NumberedInOrder(segments: seq<Segment>) {
    forall k :: 0 <= k < |segments| ==> segments[k].id == Numbered(FRAGMENT, k)
  }

  /** What the buffer keeps from one append to the next. */
  predicate EvidenceSoFar(output: ByteString, sources: Sources, segments: seq<Segment>, sha: Digest) {
    EvidenceHolds(output, sources, segments, sha) && NumberedInOrder(segments)
  }

  /** Appending a slice of a known source keeps the evidence right. */
  lemma AppendKeepsEvidence(output: ByteString, sources: Sources, segments: seq<Segment>, piece: Piece, sha: Digest)
    requires EvidenceSoFar(output, sources, segments, sha) && PieceFits(sources, piece)
    requires PieceBytes(sources, piece) != []
    ensures var bytes := PieceBytes(sources, piece);
            var segment := Segment(Numbered(FRAGMENT, |segments|), piece.revision, piece.range,
                                   ByteRange(|output|, |output + bytes|), sha(bytes), piece.ownerId);
            EvidenceSoFar(output + bytes, sources, segments + [segment], sha)
  {
    var bytes := PieceBytes(sources, piece);
    var segment := Segment(Numbered(FRAGMENT, |segments|), piece.revision, piece.range,
                           ByteRange(|output|, |output + bytes|), sha(bytes), piece.ownerId);
    var longer, all := output + bytes, segments + [segment];
    forall k | 0 <= k < |all| ensures SegmentHolds(longer, sources, all, k, sha) {
      if k < |segments| {
        assert SegmentHolds(output, sources, segments, k, sha);
        var range := segments[k].outputRange;
        assert longer[range.start..range.end] == output[range.start..range.end];
      } else {
        forall j | 0 <= j < k ensures all[j].id != all[k].id {
          NumberedInjective(FRAGMENT, j, k);
        }
        assert longer[|output|..|longer|] == bytes;
      }
    }
  }
}
