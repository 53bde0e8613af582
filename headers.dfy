/**
 * The header parser: walks the section-header table that follows the magic
 * and version bytes, one 3-byte header (kind id, 2-byte big-endian size) at
 * a time until a zero terminator, rejecting each malformed header as soon as
 * it is read.
 */
module SectionHeaders {
  import opened Eof

  /** The parsed header table and the offset where the section bodies begin. */
  datatype Headers = Headers(sections: seq<SectionHeader>, bodyOffset: nat)

  /** The offset of the first section header: after the magic and the version byte. */
  const HeaderTableOffset: nat := |Magic| + 1

  /** The kind a non-terminator section id denotes in a container of version `v`, if any. */
  function SectionKindOf(v: Version, id: uint8): (k: Option<SectionKind>)
    ensures k.Some? ==> KindId(k.value) == id
    ensures k == Some(Table) ==> v == Eof2
  {
    if id == 0x01 then Some(Code)
    else if id == 0x02 then Some(Data)
    else if id == 0x03 && v == Eof2 then Some(Table)
    else None
  }

  predicate HasSection(hs: seq<SectionHeader>, k: SectionKind)
  {
    exists j | 0 <= j < |hs| :: hs[j].kind == k
  }

  /** A header on its own: a non-zero size, and an even one for a Table that only version 2 allows. */
  predicate ValidHeader(v: Version, h: SectionHeader)
  {
    && 0 < h.size <= MaxSectionSize
    && (h.kind == Table ==> v == Eof2 && h.size % 2 == 0)
  }

  /**
   * A complete header table: the Code header first and only once, at most
   * one Data header, any number of Table headers, every header valid.
   */
  predicate WellFormed(v: Version, hs: seq<SectionHeader>)
  {
    && |hs| > 0
    && hs[0].kind == Code
    && (forall j | 1 <= j < |hs| :: hs[j].kind != Code)
    && (forall j, k | 0 <= j < k < |hs| :: !(hs[j].kind == Data && hs[k].kind == Data))
    && (forall j | 0 <= j < |hs| :: ValidHeader(v, hs[j]))
  }

  /** The headers read so far, before the terminator: none yet, or a well-formed table. */
  predicate ValidSoFar(v: Version, hs: seq<SectionHeader>)
  {
    hs == [] || WellFormed(v, hs)
  }

  /**
   * The checks on a section id read after the headers `hs`: the id must name
   * a kind this version knows; Code must be the first header and not repeat;
   * a Data or Table header needs a Code header before it; Data must not repeat.
   */
  function CheckKind(v: Version, hs: seq<SectionHeader>, id: uint8): (r: Result<SectionKind>)
    requires ValidSoFar(v, hs)
    ensures r.Ok? ==> KindId(r.value) == id
    ensures r.Ok? ==> (r.value == Code <==> hs == [])
    ensures r.Err? ==> r.error in {UnknownSectionId, MultipleCodeSections, CodeSectionMissing, MultipleDataSections}
  {
    match SectionKindOf(v, id)
    case None => Err(UnknownSectionId)
    case Some(Code) =>
      if HasSection(hs, Code) then Err(MultipleCodeSections) else Ok(Code)
    case Some(k) =>
      if !HasSection(hs, Code) then Err(CodeSectionMissing)
      else if k == Data && HasSection(hs, Data) then Err(MultipleDataSections)
      else Ok(k)
  }

  /** The big-endian value of a 2-byte size field. */
  function SizeOf(hi: uint8, lo: uint8): (size: nat)
    ensures size <= MaxSectionSize
  {
    hi as nat * 0x100 + lo as nat
  }

  /** The checks on a declared size: non-zero, and even for a Table. */
  function CheckSize(kind: SectionKind, hi: uint8, lo: uint8): (r: Result<nat>)
    ensures r.Ok? <==> SizeOf(hi, lo) != 0 && (kind == Table ==> SizeOf(hi, lo) % 2 == 0)
    ensures r.Ok? ==> r.value == SizeOf(hi, lo)
    ensures r.Err? ==> r.error in {ZeroSectionSize, OddTableSectionSize}
  {
    var size := SizeOf(hi, lo);
    if size == 0 then Err(ZeroSectionSize)
    else if kind == Table && size % 2 != 0 then Err(OddTableSectionSize)
    else Ok(size)
  }

  /** The three bytes of one section header. */
  function EncodeSection(h: SectionHeader): (b: seq<uint8>)
    requires h.size <= MaxSectionSize
    ensures |b| == 3
  {
    [KindId(h.kind), (h.size / 0x100) as uint8, (h.size % 0x100) as uint8]
  }

  predicate SizesFit(hs: seq<SectionHeader>)
  {
    forall j | 0 <= j < |hs| :: hs[j].size <= MaxSectionSize
  }

  /** The bytes of a header table without its terminator. */
  function EncodeSections(hs: seq<SectionHeader>): (b: seq<uint8>)
    requires SizesFit(hs)
    ensures |b| == 3 * |hs|
  {
    if hs == [] then [] else EncodeSection(hs[0]) + EncodeSections(hs[1..])
  }

  /**
   * The header walk from offset `pos`, after the headers `hs` have been read:
   * read a section id; the terminator ends the table, which must then hold
   * a Code header; any other id must pass the kind checks and be followed by
   * two size bytes that pass the size checks.
   */
  function ParseSections(v: Version, b: seq<uint8>, pos: nat, hs: seq<SectionHeader>): (r: Result<Headers>)
    requires ValidSoFar(v, hs)
    decreases |b| - pos
  {
    if pos >= |b| then Err(SectionHeadersNotTerminated)
    else if b[pos] == Terminator then
      if !HasSection(hs, Code) then Err(CodeSectionMissing) else Ok(Headers(hs, pos + 1))
    else
      match CheckKind(v, hs, b[pos])
      case Err(e) => Err(e)
      case Ok(kind) =>
        if pos + 2 >= |b| then Err(SectionHeadersNotTerminated)
        else
          match CheckSize(kind, b[pos + 1], b[pos + 2])
          case Err(e) => Err(e)
          case Ok(size) =>
            HeaderAppended(v, hs, SectionHeader(kind, size));
            ParseSections(v, b, pos + 3, hs + [SectionHeader(kind, size)])
  }

  /**
   * On success the header walk has read a well-formed table that extends
   * `hs`, and the bytes it walked over are exactly the encoding of the new
   * headers followed by the terminator.
   */
  lemma {:induction false} ParsedShape(v: Version, b: seq<uint8>, pos: nat, hs: seq<SectionHeader>)
    requires ValidSoFar(v, hs)
    ensures var r := ParseSections(v, b, pos, hs);
      r.Ok? ==>
      && WellFormed(v, r.value.sections)
      && |hs| <= |r.value.sections|
      && r.value.sections[..|hs|] == hs
      && r.value.bodyOffset == pos + 3 * (|r.value.sections| - |hs|) + 1 <= |b|
      && b[pos..r.value.bodyOffset] == EncodeSections(r.value.sections[|hs|..]) + [Terminator]
    decreases |b| - pos
  {
    var r := ParseSections(v, b, pos, hs);
    if r.Ok? && b[pos] == Terminator {
      assert hs[|hs|..] == [];
    } else if r.Ok? {
      var kind := CheckKind(v, hs, b[pos]).value;
      var h := SectionHeader(kind, CheckSize(kind, b[pos + 1], b[pos + 2]).value);
      HeaderAppended(v, hs, h);
      ParseStep(v, b, pos, hs, h);
      ParsedShape(v, b, pos + 3, hs + [h]);
      ParsedStep(v, b, pos, hs, h, r.value);
    }
  }

  /** The errors the header walk can report: never an instruction error, never `Success`. */
  predicate IsHeaderError(e: EofValidationError)
  {
    e in {SectionHeadersNotTerminated, CodeSectionMissing, UnknownSectionId, MultipleCodeSections,
          MultipleDataSections, ZeroSectionSize, OddTableSectionSize}
  }

  lemma {:induction false} HeaderOutcomes(v: Version, b: seq<uint8>, pos: nat, hs: seq<SectionHeader>)
    requires ValidSoFar(v, hs)
    ensures ParseSections(v, b, pos, hs).Err? ==> IsHeaderError(ParseSections(v, b, pos, hs).error)
    decreases |b| - pos
  {
    if pos < |b| && b[pos] != Terminator && CheckKind(v, hs, b[pos]).Ok? && pos + 2 < |b| {
      var kind := CheckKind(v, hs, b[pos]).value;
      var sz := CheckSize(kind, b[pos + 1], b[pos + 2]);
      if sz.Ok? {
        var h := SectionHeader(kind, sz.value);
        HeaderAppended(v, hs, h);
        HeaderOutcomes(v, b, pos + 3, hs + [h]);
      }
    }
  }

  /** Appending a header that passed both checks keeps the table valid. */
  lemma HeaderAppended(v: Version, hs: seq<SectionHeader>, h: SectionHeader)
    requires ValidSoFar(v, hs)
    requires CheckKind(v, hs, KindId(h.kind)) == Ok(h.kind)
    requires 0 < h.size <= MaxSectionSize && (h.kind == Table ==> h.size % 2 == 0)
    ensures ValidSoFar(v, hs + [h])
  {
    var hs' := hs + [h];
    assert hs'[|hs|] == h;
    if h.kind == Table {
      assert SectionKindOf(v, KindId(h.kind)) == Some(Table);
    }
    forall j | 0 <= j < |hs| ensures hs'[j] == hs[j] { }
    if h.kind == Code {
      assert hs == [];
    } else {
      assert hs != [];
    }
  }

  /** The size bytes of an encoded header read back as the size. */
  lemma SizeRoundTrip(size: nat)
    requires size <= MaxSectionSize
    ensures SizeOf((size / 0x100) as uint8, (size % 0x100) as uint8) == size
  {
  }

  /** A size read from two bytes encodes back to the same two bytes. */
  lemma SizeBytesRoundTrip(hi: uint8, lo: uint8)
    ensures (SizeOf(hi, lo) / 0x100) as uint8 == hi
    ensures (SizeOf(hi, lo) % 0x100) as uint8 == lo
  {
  }

  /** The bookkeeping of one successful header step. */
  lemma ParsedStep(v: Version, b: seq<uint8>, pos: nat, hs: seq<SectionHeader>, h: SectionHeader, res: Headers)
    requires pos + 2 < |b|
    requires KindId(h.kind) == b[pos] && h.size == SizeOf(b[pos + 1], b[pos + 2])
    requires WellFormed(v, res.sections)
    requires |hs + [h]| <= |res.sections| && res.sections[..|hs + [h]|] == hs + [h]
    requires res.bodyOffset == pos + 3 + 3 * (|res.sections| - |hs + [h]|) + 1 <= |b|
    requires b[pos + 3..res.bodyOffset] == EncodeSections(res.sections[|hs + [h]|..]) + [Terminator]
    ensures |hs| <= |res.sections| && res.sections[..|hs|] == hs
    ensures res.bodyOffset == pos + 3 * (|res.sections| - |hs|) + 1
    ensures b[pos..res.bodyOffset] == EncodeSections(res.sections[|hs|..]) + [Terminator]
  {
    var ss := res.sections;
    assert ss[..|hs|] == (hs + [h])[..|hs|] == hs;
    assert ss[|hs|] == (hs + [h])[|hs|] == h;
    assert ss[|hs|..][0] == h;
    assert ss[|hs|..][1..] == ss[|hs| + 1..];
    assert WellFormed(v, ss) ==> SizesFit(ss[|hs|..]);
    SizeBytesRoundTrip(b[pos + 1], b[pos + 2]);
    assert EncodeSection(h) == b[pos..pos + 3];
    assert EncodeSections(ss[|hs|..]) == EncodeSection(h) + EncodeSections(ss[|hs| + 1..]);
    assert b[pos..res.bodyOffset] == b[pos..pos + 3] + b[pos + 3..res.bodyOffset];
  }

  /** The header walk of a whole container. */
  function ParseHeaders(v: Version, b: seq<uint8>): (r: Result<Headers>)
    ensures r.Err? ==> IsHeaderError(r.error)
    ensures r.Ok? ==> WellFormed(v, r.value.sections)
    ensures r.Ok? ==> HeaderTableOffset < r.value.bodyOffset <= |b|
    ensures r.Ok? ==> b[HeaderTableOffset..r.value.bodyOffset] == EncodeSections(r.value.sections) + [Terminator]
  {
    var r := ParseSections(v, b, HeaderTableOffset, []);
    HeaderOutcomes(v, b, HeaderTableOffset, []);
    ParsedShape(v, b, HeaderTableOffset, []);
    if r.Ok? then
      assert r.value.sections[0..] == r.value.sections;
      r
    else r
  }

  /** Every non-empty prefix of a well-formed table is well-formed. */
  lemma PrefixValid(v: Version, hs: seq<SectionHeader>, n: nat)
    requires ValidSoFar(v, hs) && n <= |hs|
    ensures ValidSoFar(v, hs[..n])
  {
    if 0 < n {
      var p := hs[..n];
      forall j | 0 <= j < n ensures p[j] == hs[j] { }
    }
  }

  /** A header that keeps the table valid passes the kind checks. */
  lemma CheckKindAccepts(v: Version, hs: seq<SectionHeader>, h: SectionHeader)
    requires ValidSoFar(v, hs) && ValidSoFar(v, hs + [h])
    ensures CheckKind(v, hs, KindId(h.kind)) == Ok(h.kind)
  {
    var hs' := hs + [h];
    assert hs'[|hs|] == h;
    forall j | 0 <= j < |hs| ensures hs'[j] == hs[j] { }
    if h.kind == Code {
      assert hs == [];
    } else {
      assert hs != [] && hs[0].kind == Code;
      assert ValidHeader(v, hs'[|hs|]);
    }
  }

  /** One header step that passes both checks. */
  lemma ParseStep(v: Version, b: seq<uint8>, pos: nat, hs: seq<SectionHeader>, h: SectionHeader)
    requires ValidSoFar(v, hs) && ValidSoFar(v, hs + [h])
    requires pos + 2 < |b| && b[pos] == KindId(h.kind)
    requires CheckKind(v, hs, b[pos]) == Ok(h.kind)
    requires CheckSize(h.kind, b[pos + 1], b[pos + 2]) == Ok(h.size)
    ensures ParseSections(v, b, pos, hs) == ParseSections(v, b, pos + 3, hs + [h])
  {
  }

  /** The header walk steps over the encoding of one header that keeps the table valid. */
  lemma ParseSkipsOne(v: Version, b: seq<uint8>, pos: nat, hs: seq<SectionHeader>, h: SectionHeader)
    requires ValidSoFar(v, hs) && ValidSoFar(v, hs + [h])
    requires h.size <= MaxSectionSize
    requires pos + 3 <= |b| && b[pos..pos + 3] == EncodeSection(h)
    ensures ParseSections(v, b, pos, hs) == ParseSections(v, b, pos + 3, hs + [h])
  {
    CheckKindAccepts(v, hs, h);
    assert b[pos] == b[pos..pos + 3][0] == KindId(h.kind);
    assert b[pos + 1] == b[pos..pos + 3][1] && b[pos + 2] == b[pos..pos + 3][2];
    assert ValidHeader(v, (hs + [h])[|hs|]);
    SizeRoundTrip(h.size);
    ParseStep(v, b, pos, hs, h);
  }

  /**
   * The header walk steps over the encoding of headers that keep the table
   * valid, reading back exactly those headers.
   */
  lemma {:induction false} ParseSkipsEncoded(v: Version, b: seq<uint8>, pos: nat, hs: seq<SectionHeader>, more: seq<SectionHeader>)
    requires ValidSoFar(v, hs) && ValidSoFar(v, hs + more)
    requires SizesFit(more)
    requires pos + 3 * |more| <= |b| && b[pos..pos + 3 * |more|] == EncodeSections(more)
    ensures ParseSections(v, b, pos, hs) == ParseSections(v, b, pos + 3 * |more|, hs + more)
    decreases |more|
  {
    if more == [] {
      assert hs + more == hs;
    } else {
      var h := more[0];
      ValidExtended(v, hs, more);
      EncodedSplit(b, pos, more);
      ParseSkipsOne(v, b, pos, hs, h);
      ParseSkipsEncoded(v, b, pos + 3, hs + [h], more[1..]);
    }
  }

  /** Moving the first of the headers still to read onto those already read. */
  lemma ValidExtended(v: Version, hs: seq<SectionHeader>, more: seq<SectionHeader>)
    requires ValidSoFar(v, hs + more) && more != []
    ensures ValidSoFar(v, hs + [more[0]])
    ensures (hs + [more[0]]) + more[1..] == hs + more
  {
    var hs' := hs + [more[0]];
    assert (hs + more)[..|hs'|] == hs';
    PrefixValid(v, hs + more, |hs'|);
  }

  /** The encoding of a non-empty table splits into its first header and the rest. */
  lemma EncodedSplit(b: seq<uint8>, pos: nat, more: seq<SectionHeader>)
    requires SizesFit(more) && more != []
    requires pos + 3 * |more| <= |b| && b[pos..pos + 3 * |more|] == EncodeSections(more)
    ensures more[0].size <= MaxSectionSize && SizesFit(more[1..])
    ensures b[pos..pos + 3] == EncodeSection(more[0])
    ensures b[pos + 3..pos + 3 + 3 * |more[1..]|] == EncodeSections(more[1..])
  {
    var enc := EncodeSections(more);
    assert enc == EncodeSection(more[0]) + EncodeSections(more[1..]);
    assert b[pos..pos + 3] == enc[..3];
    assert b[pos + 3..pos + 3 + 3 * |more[1..]|] == enc[3..];
  }

  /** A well-formed table, encoded and terminated, is walked back to itself. */
  lemma WalkEncoded(v: Version, b: seq<uint8>, hs: seq<SectionHeader>)
    requires WellFormed(v, hs)
    requires HeaderTableOffset + 3 * |hs| < |b|
    requires b[HeaderTableOffset..HeaderTableOffset + 3 * |hs|] == EncodeSections(hs)
    requires b[HeaderTableOffset + 3 * |hs|] == Terminator
    ensures ParseSections(v, b, HeaderTableOffset, []) == Ok(Headers(hs, HeaderTableOffset + 3 * |hs| + 1))
  {
    var off := HeaderTableOffset + 3 * |hs|;
    assert [] + hs == hs;
    ParseSkipsEncoded(v, b, HeaderTableOffset, [], hs);
    assert HasSection(hs, Code) by { assert hs[0].kind == Code; }
  }

  /** A well-formed table, encoded and terminated, parses back to itself. */
  lemma ParseEncoded(v: Version, b: seq<uint8>, hs: seq<SectionHeader>)
    requires WellFormed(v, hs)
    requires HeaderTableOffset + 3 * |hs| < |b|
    requires b[HeaderTableOffset..HeaderTableOffset + 3 * |hs|] == EncodeSections(hs)
    requires b[HeaderTableOffset + 3 * |hs|] == Terminator
    ensures ParseHeaders(v, b) == Ok(Headers(hs, HeaderTableOffset + 3 * |hs| + 1))
  {
    WalkEncoded(v, b, hs);
  }

  /**
   * The header walk as a cursor loop: the cursor stays on a header boundary
   * and the headers read so far stay a valid prefix of a table.
   */
  method WalkHeaders(v: Version, b: seq<uint8>) returns (r: Result<Headers>)
    ensures r == ParseHeaders(v, b)
  {
    var pos := HeaderTableOffset;
    var hs: seq<SectionHeader> := [];
    while true
      invariant ValidSoFar(v, hs)
      invariant ParseSections(v, b, pos, hs) == ParseHeaders(v, b)
      decreases |b| - pos
    {
      if pos >= |b| {
        return Err(SectionHeadersNotTerminated);
      }
      if b[pos] == Terminator {
        if !HasSection(hs, Code) {
          return Err(CodeSectionMissing);
        }
        return Ok(Headers(hs, pos + 1));
      }
      var kind := CheckKind(v, hs, b[pos]);
      if kind.Err? {
        return Err(kind.error);
      }
      if pos + 2 >= |b| {
        return Err(SectionHeadersNotTerminated);
      }
      var size := CheckSize(kind.value, b[pos + 1], b[pos + 2]);
      if size.Err? {
        return Err(size.error);
      }
      var h := SectionHeader(kind.value, size.value);
      HeaderAppended(v, hs, h);
      hs := hs + [h];
      pos := pos + 3;
    }
  }
}
