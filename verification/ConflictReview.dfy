/** Read-only recognition of Git conflict markers: a line state machine over exact bytes. */
module ConflictReview {
  import opened Wrappers
  import opened Sequences
  import opened Text
  import opened Bytes

  const MAX_REVIEW_BYTES: nat := 8 * 1024 * 1024
  const MAX_REVIEW_REGIONS: nat := 10000
  const MAX_MARKER_SIZE: nat := 128

  const CARRIAGE_RETURN: Byte := 13
  const SPACE: Byte := 32
  const TAB: Byte := 9
  const BOM: ByteString := [0xEF, 0xBB, 0xBF]

  datatype Kind = Opening | BaseMark | Separator | Closing

  function MarkerByte(kind: Kind): Byte {
    match kind
    case Opening => 60
    case BaseMark => 124
    case Separator => 61
    case Closing => 62
  }

  datatype Region = Region(
    id: string,
    range: ByteRange,
    ours: ByteRange,
    base: Option<ByteRange>,
    theirs: ByteRange,
    startLine: nat,
    separatorLine: nat,
    endLine: nat)

  datatype ReviewError =
    | InputLimit
    | MarkerSize
    | InvalidUtf8
    | RegionLimit(line: nat)
    | InvalidMarkers(line: nat)
    | Unterminated(line: nat)

  // ----- reading one line

  function KindOf(b: Byte): Option<Kind> {
    if b == 60 then Some(Opening)
    else if b == 124 then Some(BaseMark)
    else if b == 61 then Some(Separator)
    else if b == 62 then Some(Closing)
    else None
  }

  /** `marker`: `size` equal marker bytes, then nothing, or a blank before a label where one is allowed. */
  function Marker(line: ByteString, size: nat): Option<Kind>
    requires size > 0
  {
    if line == [] || KindOf(line[0]).None? || |line| < size
       || (exists i :: 0 <= i < size && line[i] != line[0]) then None
    else if |line| == size then KindOf(line[0])
    else if KindOf(line[0]) != Some(Separator) && (line[size] == SPACE || line[size] == TAB) then KindOf(line[0])
    else None
  }

  function StripSuffix(s: ByteString, last: Byte): ByteString {
    if s != [] && s[|s| - 1] == last then s[..|s| - 1] else s
  }

  /** The line without its newline, and without one carriage return before it. */
  function Content(raw: ByteString): ByteString {
    StripSuffix(StripSuffix(raw, NEWLINE), CARRIAGE_RETURN)
  }

  /** The length of a byte-order mark, which only the first line of a source can carry. */
  function BomLength(raw: ByteString, first: bool): nat {
    if first && BOM <= Content(raw) then |BOM| else 0
  }

  function LineKind(raw: ByteString, first: bool, size: nat): Option<Kind>
    requires size > 0
  {
    Marker(Content(raw)[BomLength(raw, first)..], size)
  }

  /** What the state machine sees of a line. */
  datatype Seen = Seen(kind: Option<Kind>, offset: nat, end: nat, bom: nat, number: nat)

  function SeenLine(raw: ByteString, offset: nat, number: nat, size: nat): Seen
    requires size > 0
  {
    Seen(LineKind(raw, offset == 0, size), offset, offset + |raw|, BomLength(raw, offset == 0), number)
  }

  /** The lines from `offset` on, the first of them with number `number`. */
  function SeenLines(lines: seq<ByteString>, offset: nat, number: nat, size: nat): (seen: seq<Seen>)
    requires size > 0
    ensures |seen| == |lines|
  {
    if lines == [] then []
    else [SeenLine(lines[0], offset, number, size)] + SeenLines(lines[1..], offset + |lines[0]|, number + 1, size)
  }

  // ----- the state machine

  datatype Open = Open(
    start: nat,
    startLine: nat,
    ours: nat,
    base: Option<(nat, nat)>,
    separator: Option<(nat, nat, nat)>)

  datatype State = State(open: Option<Open>, regions: seq<Region>)

  const START := State(None, [])

  /** The region that a closing marker completes. */
  function Completed(open: Open, index: nat, closing: Seen): Region
    requires open.separator.Some?
  {
    var (separatorStart, theirsStart, separatorLine) := open.separator.value;
    Region(
      Numbered("conflict.", index),
      ByteRange(open.start, closing.end),
      ByteRange(open.ours, if open.base.Some? then open.base.value.0 else separatorStart),
      if open.base.Some? then Some(ByteRange(open.base.value.1, separatorStart)) else None,
      ByteRange(theirsStart, closing.offset),
      open.startLine,
      separatorLine,
      closing.number)
  }

  function Step(state: State, line: Seen): Result<State, ReviewError> {
    var invalid := Err(InvalidMarkers(line.number));
    match line.kind
    case None => Ok(state)
    case Some(Opening) =>
      if state.open.Some? then invalid
      else if |state.regions| >= MAX_REVIEW_REGIONS then Err(RegionLimit(line.number))
      else Ok(state.(open := Some(Open(line.offset + line.bom, line.number, line.end, None, None))))
    case Some(BaseMark) =>
      if state.open.None? || state.open.value.base.Some? || state.open.value.separator.Some? then invalid
      else Ok(state.(open := Some(state.open.value.(base := Some((line.offset, line.end))))))
    case Some(Separator) =>
      if state.open.None? || state.open.value.separator.Some? then invalid
      else Ok(state.(open := Some(state.open.value.(separator := Some((line.offset, line.end, line.number))))))
    case Some(Closing) =>
      if state.open.None? || state.open.value.separator.None? then invalid
      else Ok(State(None, state.regions + [Completed(state.open.value, |state.regions|, line)]))
  }

  function Run(state: State, lines: seq<Seen>): Result<State, ReviewError>
    decreases |lines|
  {
    if lines == [] then Ok(state)
    else
      match Step(state, lines[0])
      case Err(e) => Err(e)
      case Ok(next) => Run(next, lines[1..])
  }

  /** The outcome of a review. */
  function Review(bytes: ByteString, size: nat): Result<seq<Region>, ReviewError> {
    if |bytes| > MAX_REVIEW_BYTES then Err(InputLimit)
    else if !(1 <= size <= MAX_MARKER_SIZE) then Err(MarkerSize)
    else if !ValidUtf8(bytes) then Err(InvalidUtf8)
    else
      match Run(START, SeenLines(SplitInclusive(bytes, NEWLINE), 0, 1, size))
      case Err(e) => Err(e)
      case Ok(state) => if state.open.Some? then Err(Unterminated(state.open.value.startLine)) else Ok(state.regions)
  }

  /** `review_conflicts`: one pass over the lines, with a running offset. */
  method ReviewConflicts(bytes: ByteString, size: nat) returns (r: Result<seq<Region>, ReviewError>)
    ensures r == Review(bytes, size)
  {
    hide ValidUtf8, SplitInclusive, LineKind, BomLength, Numbered;
    if |bytes| > MAX_REVIEW_BYTES {
      return Err(InputLimit);
    }
    if !(1 <= size <= MAX_MARKER_SIZE) {
      return Err(MarkerSize);
    }
    if !ValidUtf8(bytes) {
      return Err(InvalidUtf8);
    }
    var lines := SplitInclusive(bytes, NEWLINE);
    var regions: seq<Region> := [];
    var open: Option<Open> := None;
    var offset: nat := 0;
    ghost var outcome := Run(START, SeenLines(lines, 0, 1, size));
    assert lines[0..] == lines;
    for index := 0 to |lines|
      invariant outcome == Run(State(open, regions), SeenLines(lines[index..], offset, index + 1, size))
    {
      var raw, number := lines[index], index + 1;
      var end := offset + |raw|;
      var bom := BomLength(raw, offset == 0);
      assert lines[index..][1..] == lines[index + 1..];
      match LineKind(raw, offset == 0, size) {
        case Some(Opening) =>
          if open.Some? {
            return Err(InvalidMarkers(number));
          }
          if |regions| >= MAX_REVIEW_REGIONS {
            return Err(RegionLimit(number));
          }
          open := Some(Open(offset + bom, number, end, None, None));
        case Some(BaseMark) =>
          if open.None? || open.value.base.Some? || open.value.separator.Some? {
            return Err(InvalidMarkers(number));
          }
          open := Some(open.value.(base := Some((offset, end))));
        case Some(Separator) =>
          if open.None? || open.value.separator.Some? {
            return Err(InvalidMarkers(number));
          }
          open := Some(open.value.(separator := Some((offset, end, number))));
        case Some(Closing) =>
          if open.None? || open.value.separator.None? {
            return Err(InvalidMarkers(number));
          }
          var current := open.value;
          var (separatorStart, theirsStart, separatorLine) := current.separator.value;
          var oursEnd := if current.base.Some? then current.base.value.0 else separatorStart;
          var base := if current.base.Some? then Some(ByteRange(current.base.value.1, separatorStart)) else None;
          regions := regions + [Region(Numbered("conflict.", |regions|), ByteRange(current.start, end),
                                       ByteRange(current.ours, oursEnd), base, ByteRange(theirsStart, offset),
                                       current.startLine, separatorLine, number)];
          open := None;
        case None =>
      }
      offset := end;
    }
    if open.Some? {
      return Err(Unterminated(open.value.startLine));
    }
    return Ok(regions);
  }
}
