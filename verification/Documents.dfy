/** Owner documents: source bytes with an ordered list of structural owners. */
module Documents {
  import opened Wrappers
  import opened Sequences
  import opened Bytes

  datatype Owner = Owner(
    id: string,
    path: string,
    fingerprint: string,
    start: nat,
    end: nat,
    startLine: nat,
    endLine: nat)

  datatype Document = Document(source: ByteString, owners: seq<Owner>)

  datatype Defect =
    | BadIdentity
    | BadByteRange(path: string)
    | OverlapsPrior(path: string)
    | BadLineRange(path: string)

  function OwnerIds(doc: Document): seq<string> {
    seq(|doc.owners|, i requires 0 <= i < |doc.owners| => doc.owners[i].id)
  }

  // ----- validity

  predicate IdentityFits(doc: Document, k: nat)
    requires k < |doc.owners|
  {
    && doc.owners[k].id != ""
    && forall j :: 0 <= j < k ==> doc.owners[j].id != doc.owners[k].id
  }

  predicate BytesFit(doc: Document, k: nat)
    requires k < |doc.owners|
  {
    var o := doc.owners[k];
    && o.start < o.end <= |doc.source|
    && IsCharBoundary(doc.source, o.start)
    && IsCharBoundary(doc.source, o.end)
  }

  /** Where the text before owner `k` (or the suffix) starts. */
  function PriorEnd(doc: Document, k: nat): nat
    requires k <= |doc.owners|
  {
    if k == 0 then 0 else doc.owners[k - 1].end
  }

  /** Where the text before owner `k` (or the suffix) ends. */
  function NextStart(doc: Document, k: nat): nat
    requires k <= |doc.owners|
  {
    if k == |doc.owners| then |doc.source| else doc.owners[k].start
  }

  predicate LinesFit(doc: Document, k: nat)
    requires k < |doc.owners|
  {
    1 <= doc.owners[k].startLine <= doc.owners[k].endLine
  }

  predicate OwnerFits(doc: Document, k: nat)
    requires k < |doc.owners|
  {
    IdentityFits(doc, k) && BytesFit(doc, k) && PriorEnd(doc, k) <= doc.owners[k].start && LinesFit(doc, k)
  }

  predicate ValidDocument(doc: Document) {
    forall k :: 0 <= k < |doc.owners| ==> OwnerFits(doc, k)
  }

  function DefectOf(doc: Document, k: nat): Defect
    requires k < |doc.owners|
  {
    var path := doc.owners[k].path;
    if !IdentityFits(doc, k) then BadIdentity
    else if !BytesFit(doc, k) then BadByteRange(path)
    else if doc.owners[k].start < PriorEnd(doc, k) then OverlapsPrior(path)
    else BadLineRange(path)
  }

  /** Accept exactly the valid documents, or name the first failing check of the first failing owner. */
  method Validate(doc: Document) returns (defect: Option<Defect>)
    ensures defect.None? <==> ValidDocument(doc)
    ensures defect.Some? ==>
              exists k | 0 <= k < |doc.owners| ::
                && !OwnerFits(doc, k) && defect == Some(DefectOf(doc, k))
                && forall j :: 0 <= j < k ==> OwnerFits(doc, j)
  {
    var ids: set<string> := {};
    var previousEnd := 0;
    for k := 0 to |doc.owners|
      invariant ids == set j | 0 <= j < k :: doc.owners[j].id
      invariant previousEnd == PriorEnd(doc, k)
      invariant forall j :: 0 <= j < k ==> OwnerFits(doc, j)
    {
      var owner := doc.owners[k];
      if owner.id == "" || owner.id in ids {
        assert !IdentityFits(doc, k) && !OwnerFits(doc, k);
        return Some(BadIdentity);
      }
      assert IdentityFits(doc, k);
      ids := ids + {owner.id};
      if owner.start >= owner.end || owner.end > |doc.source|
         || !IsCharBoundary(doc.source, owner.start) || !IsCharBoundary(doc.source, owner.end) {
        assert !OwnerFits(doc, k);
        return Some(BadByteRange(owner.path));
      }
      if owner.start < previousEnd {
        assert !OwnerFits(doc, k);
        return Some(OverlapsPrior(owner.path));
      }
      if owner.startLine == 0 || owner.endLine < owner.startLine {
        assert !OwnerFits(doc, k);
        return Some(BadLineRange(owner.path));
      }
      previousEnd := owner.end;
    }
    return None;
  }

  lemma ValidIdsAreDistinct(doc: Document)
    requires ValidDocument(doc)
    ensures Distinct(OwnerIds(doc))
  {
    forall i, j | 0 <= i < j < |doc.owners| ensures doc.owners[i].id != doc.owners[j].id {
      assert OwnerFits(doc, j);
    }
  }

  lemma GapIsRange(doc: Document, k: nat)
    requires ValidDocument(doc) && k <= |doc.owners|
    ensures PriorEnd(doc, k) <= NextStart(doc, k) <= |doc.source|
  {
    if k > 0 {
      assert OwnerFits(doc, k - 1);
    }
    if k < |doc.owners| {
      assert OwnerFits(doc, k);
    }
  }

  // ----- owners by identity

  /** All owners of a valid document, by identity. */
  function OwnersById(doc: Document): (owners: map<string, Owner>)
    requires ValidDocument(doc)
    ensures forall k :: 0 <= k < |doc.owners| ==>
              doc.owners[k].id in owners && owners[doc.owners[k].id] == doc.owners[k]
    ensures forall id :: id in owners ==> exists k :: 0 <= k < |doc.owners| && doc.owners[k].id == id
    ensures forall id :: id in owners ==> owners[id].id == id
  {
    ValidIdsAreDistinct(doc);
    assert forall i, j :: 0 <= i < |doc.owners| && 0 <= j < |doc.owners| && doc.owners[i].id == doc.owners[j].id ==>
        i == j by {
      forall i, j | 0 <= i < |doc.owners| && 0 <= j < |doc.owners| && doc.owners[i].id == doc.owners[j].id
        ensures i == j
      {
        assert OwnerIds(doc)[i] == OwnerIds(doc)[j];
      }
    }
    map k | 0 <= k < |doc.owners| :: doc.owners[k].id := doc.owners[k]
  }

  function Lookup(doc: Document, id: string): Option<Owner>
    requires ValidDocument(doc)
  {
    var owners := OwnersById(doc);
    if id in owners then Some(owners[id]) else None
  }

  function FingerprintOf(owner: Option<Owner>): Option<string> {
    match owner
    case Some(o) => Some(o.fingerprint)
    case None => None
  }

  /** The fingerprint a document gives to an identity; none when it has no such owner. */
  function Fingerprint(doc: Document, id: string): Option<string>
    requires ValidDocument(doc)
  {
    FingerprintOf(Lookup(doc, id))
  }

  lemma IdIsOwned(doc: Document, id: string)
    requires ValidDocument(doc)
    ensures Lookup(doc, id).Some? <==> id in OwnerIds(doc)
    ensures Lookup(doc, id).Some? ==> Lookup(doc, id).value in doc.owners && Lookup(doc, id).value.id == id
  {
    if id in OwnerIds(doc) {
      var k :| 0 <= k < |doc.owners| && OwnerIds(doc)[k] == id;
      assert doc.owners[k].id in OwnersById(doc);
    }
    if id in OwnersById(doc) {
      var k :| 0 <= k < |doc.owners| && doc.owners[k].id == id;
      assert OwnerIds(doc)[k] == id;
    }
  }

  // ----- weaving gaps and owned pieces

  /** The first `i` gaps, each followed by its owned piece. */
  function Woven(gaps: seq<ByteString>, owned: seq<ByteString>, i: nat): ByteString
    requires i <= |owned| < |gaps|
  {
    if i == 0 then [] else Woven(gaps, owned, i - 1) + gaps[i - 1] + owned[i - 1]
  }

  /** Gaps around owned pieces: one before each piece, and the suffix. */
  function Weave(gaps: seq<ByteString>, owned: seq<ByteString>): ByteString
    requires |gaps| == |owned| + 1
  {
    Woven(gaps, owned, |owned|) + gaps[|owned|]
  }

  /** The bytes in front of owner `k`, or after the last owner. */
  function GapRange(doc: Document, k: nat): ByteRange
    requires k <= |doc.owners|
  {
    ByteRange(PriorEnd(doc, k), NextStart(doc, k))
  }

  function Gap(doc: Document, k: nat): ByteString
    requires ValidDocument(doc) && k <= |doc.owners|
  {
    GapIsRange(doc, k);
    doc.source[PriorEnd(doc, k)..NextStart(doc, k)]
  }

  function Gaps(doc: Document): seq<ByteString>
    requires ValidDocument(doc)
  {
    seq(|doc.owners| + 1, k requires 0 <= k <= |doc.owners| => Gap(doc, k))
  }

  function OwnerBytes(doc: Document, k: nat): ByteString
    requires ValidDocument(doc) && k < |doc.owners|
  {
    assert OwnerFits(doc, k);
    doc.source[doc.owners[k].start..doc.owners[k].end]
  }

  function AllOwnerBytes(doc: Document): seq<ByteString>
    requires ValidDocument(doc)
  {
    seq(|doc.owners|, k requires 0 <= k < |doc.owners| => OwnerBytes(doc, k))
  }

  /** `layout_segments`: every byte outside the owners, one segment per slot. */
  method LayoutSegments(doc: Document) returns (segments: seq<ByteString>)
    requires ValidDocument(doc)
    ensures segments == Gaps(doc)
  {
    var cursor := 0;
    segments := [];
    for k := 0 to |doc.owners|
      invariant cursor == PriorEnd(doc, k)
      invariant segments == Gaps(doc)[..k]
    {
      GapIsRange(doc, k);
      segments := segments + [doc.source[cursor..doc.owners[k].start]];
      cursor := doc.owners[k].end;
    }
    GapIsRange(doc, |doc.owners|);
    assert doc.source[cursor..] == Gap(doc, |doc.owners|);
    segments := segments + [doc.source[cursor..]];
  }

  /** Gaps and owners partition the source. */
  lemma SourceIsWoven(doc: Document)
    requires ValidDocument(doc)
    ensures Weave(Gaps(doc), AllOwnerBytes(doc)) == doc.source
  {
    SourceIsWovenUpTo(doc, |doc.owners|);
    GapIsRange(doc, |doc.owners|);
  }

  lemma {:induction false} SourceIsWovenUpTo(doc: Document, i: nat)
    requires ValidDocument(doc) && i <= |doc.owners|
    ensures PriorEnd(doc, i) <= |doc.source|
    ensures Woven(Gaps(doc), AllOwnerBytes(doc), i) == doc.source[..PriorEnd(doc, i)]
  {
    hide IdentityFits, IsCharBoundary;
    if i > 0 {
      SourceIsWovenUpTo(doc, i - 1);
      assert OwnerFits(doc, i - 1);
      JoinSlices(doc.source, PriorEnd(doc, i - 1), doc.owners[i - 1].start, PriorEnd(doc, i));
    }
  }

  lemma JoinSlices(s: ByteString, a: nat, b: nat, c: nat)
    requires a <= b <= c <= |s|
    ensures s[..a] + s[a..b] + s[b..c] == s[..c]
  {}

  lemma CutPrefix(s: ByteString, a: ByteString, b: ByteString, c: ByteString)
    requires a + b + c <= s
    ensures s[|a|..|a| + |b|] == b && s[|a| + |b|..|a| + |b| + |c|] == c
  {
    var t := a + b + c;
    assert s[..|t|] == t;
    assert t[|a|..|a| + |b|] == b && t[|a| + |b|..|a| + |b| + |c|] == c;
  }

  /** Where owned piece `k` lands in the woven text. */
  function PlacedStart(gaps: seq<ByteString>, owned: seq<ByteString>, k: nat): nat
    requires k < |owned| < |gaps|
  {
    |Woven(gaps, owned, k)| + |gaps[k]|
  }

  /** `doc` holds the woven text, with its owners exactly where the owned pieces were put. */
  predicate PlacedAt(doc: Document, gaps: seq<ByteString>, owned: seq<ByteString>)
    requires |gaps| == |owned| + 1
  {
    && doc.source == Weave(gaps, owned)
    && |doc.owners| == |owned|
    && forall k :: 0 <= k < |owned| ==>
         && doc.owners[k].start == PlacedStart(gaps, owned, k)
         && doc.owners[k].end == PlacedStart(gaps, owned, k) + |owned[k]|
  }

  lemma {:induction false} WovenPrefix(gaps: seq<ByteString>, owned: seq<ByteString>, i: nat, j: nat)
    requires i <= j <= |owned| && |gaps| == |owned| + 1
    ensures Woven(gaps, owned, i) <= Woven(gaps, owned, j) <= Weave(gaps, owned)
    decreases |owned| - i
  {
    if i < |owned| {
      WovenPrefix(gaps, owned, i + 1, if i < j then j else i + 1);
    }
  }

  lemma RecutSlot(doc: Document, gaps: seq<ByteString>, owned: seq<ByteString>, k: nat)
    requires |gaps| == |owned| + 1 && ValidDocument(doc) && PlacedAt(doc, gaps, owned)
    requires k < |owned|
    ensures Gap(doc, k) == gaps[k] && OwnerBytes(doc, k) == owned[k]
  {
    WovenPrefix(gaps, owned, k + 1, k + 1);
    var before := Woven(gaps, owned, k);
    CutPrefix(doc.source, before, gaps[k], owned[k]);
    assert PriorEnd(doc, k) == |before|;
    assert NextStart(doc, k) == |before| + |gaps[k]|;
  }

  lemma RecutSuffix(doc: Document, gaps: seq<ByteString>, owned: seq<ByteString>)
    requires |gaps| == |owned| + 1 && ValidDocument(doc) && PlacedAt(doc, gaps, owned)
    ensures Gap(doc, |owned|) == gaps[|owned|]
  {
    assert PriorEnd(doc, |owned|) == |Woven(gaps, owned, |owned|)|;
  }

  /** Cutting a woven text at its placed owners gives back the gaps and the owned pieces. */
  lemma RecutWoven(doc: Document, gaps: seq<ByteString>, owned: seq<ByteString>)
    requires |gaps| == |owned| + 1 && ValidDocument(doc) && PlacedAt(doc, gaps, owned)
    ensures Gaps(doc) == gaps && AllOwnerBytes(doc) == owned
  {
    hide ValidDocument, PlacedStart, Weave, Gap, OwnerBytes;
    forall k | 0 <= k < |owned| ensures Gap(doc, k) == gaps[k] && OwnerBytes(doc, k) == owned[k] {
      RecutSlot(doc, gaps, owned, k);
    }
    RecutSuffix(doc, gaps, owned);
  }
}
