/**
 * The validation entry point `validate_eof`: the prefix and version checks,
 * then the header parser, then the instruction scanner over the body of the
 * code section, returning the first rejection or `Success`.
 */
module EofValidation {
  import opened Eof
  import opened Instructions
  import opened SectionHeaders
  import opened CodeScanner

  function Min(x: nat, y: nat): (m: nat)
    ensures m <= x && m <= y && (m == x || m == y)
  {
    if x <= y then x else y
  }

  /**
   * The bytes the scanner walks: the code section's body starts right after
   * the terminator and runs for its declared size, cut short where the
   * buffer ends.
   */
  function CodeBody(b: seq<uint8>, h: Headers): (code: seq<uint8>)
    requires |h.sections| > 0 && h.bodyOffset <= |b|
    ensures |code| == Min(h.sections[0].size, |b| - h.bodyOffset)
    ensures code == b[h.bodyOffset..h.bodyOffset + |code|]
  {
    b[h.bodyOffset..h.bodyOffset + Min(h.sections[0].size, |b| - h.bodyOffset)]
  }

  /** The version byte's position: right after the magic. */
  const VersionOffset: nat := |Magic|

  /** Validation of a container, a pure function of its bytes. */
  function ValidateEof(b: seq<uint8>): (r: EofValidationError)
  {
    if !HasMagic(b) then InvalidPrefix
    else if |b| == VersionOffset || VersionOf(b[VersionOffset]).None? then EofVersionUnknown
    else
      var v := VersionOf(b[VersionOffset]).value;
      match ParseHeaders(v, b)
      case Err(e) => e
      case Ok(h) => ScanCode(v, CodeBody(b, h))
  }

  /**
   * Validation as the two cursor walks run one after the other: the prefix
   * and version checks, the header loop, then the instruction loop over the
   * code body.
   */
  method Validate(b: seq<uint8>) returns (r: EofValidationError)
    ensures r == ValidateEof(b)
  {
    if !HasMagic(b) {
      return InvalidPrefix;
    }
    if |b| == VersionOffset {
      return EofVersionUnknown;
    }
    var version := VersionOf(b[VersionOffset]);
    if version.None? {
      return EofVersionUnknown;
    }
    var headers := WalkHeaders(version.value, b);
    if headers.Err? {
      return headers.error;
    }
    r := ValidateInstructions(version.value, CodeBody(b, headers.value));
  }

  /** A container laid out from its version, its header table and the bytes after the terminator. */
  function Container(v: Version, hs: seq<SectionHeader>, body: seq<uint8>): (b: seq<uint8>)
    requires SizesFit(hs)
    ensures |b| == HeaderTableOffset + 3 * |hs| + 1 + |body|
    ensures HasMagic(b) && b[VersionOffset] == VersionByte(v)
  {
    Magic + [VersionByte(v)] + EncodeSections(hs) + [Terminator] + body
  }

  /** The bytes of a container up to and including its first `|hs|` headers, then `rest`. */
  function HeaderPrefix(v: Version, hs: seq<SectionHeader>, rest: seq<uint8>): (b: seq<uint8>)
    requires SizesFit(hs)
    ensures |b| == HeaderTableOffset + 3 * |hs| + |rest|
    ensures HasMagic(b) && b[VersionOffset] == VersionByte(v)
    ensures b[HeaderTableOffset + 3 * |hs|..] == rest
  {
    Magic + [VersionByte(v)] + EncodeSections(hs) + rest
  }

  /**
   * In a laid-out container, the code body begins right after the
   * terminator and is the first `min(code size, bytes present)` bytes that
   * follow it; whatever comes after them (data and table bodies) is not
   * part of it.
   */
  lemma CodeBodyOfContainer(v: Version, hs: seq<SectionHeader>, body: seq<uint8>)
    requires SizesFit(hs) && |hs| > 0
    ensures var b := Container(v, hs, body);
            CodeBody(b, Headers(hs, HeaderTableOffset + 3 * |hs| + 1)) == body[..Min(hs[0].size, |body|)]
  {
    var b := Container(v, hs, body);
    assert b[HeaderTableOffset + 3 * |hs| + 1..] == body;
  }

  // ---------------------------------------------------------------------
  // Prefix and version

  /**
   * A buffer is rejected as `InvalidPrefix` exactly when it does not start
   * with the three magic bytes, whatever follows.
   */
  lemma InvalidPrefixIff(b: seq<uint8>)
    ensures ValidateEof(b) == InvalidPrefix <==> !HasMagic(b)
  {
    if HasMagic(b) && |b| > VersionOffset && VersionOf(b[VersionOffset]).Some? {
      var v := VersionOf(b[VersionOffset]).value;
      var r := ParseHeaders(v, b);
      if r.Ok? {
        assert ScanCode(v, CodeBody(b, r.value)) != InvalidPrefix;
      }
    }
  }

  /**
   * Behind the magic, the version byte decides `EofVersionUnknown`: it is
   * the outcome exactly when the byte is missing or is neither 1 nor 2, even
   * if a well-formed header table follows.
   */
  lemma VersionUnknownIff(b: seq<uint8>)
    ensures ValidateEof(b) == EofVersionUnknown <==>
            HasMagic(b) && (|b| == VersionOffset || b[VersionOffset] !in {0x01, 0x02})
  {
    if HasMagic(b) && |b| > VersionOffset && VersionOf(b[VersionOffset]).Some? {
      var v := VersionOf(b[VersionOffset]).value;
      var r := ParseHeaders(v, b);
      if r.Ok? {
        assert ScanCode(v, CodeBody(b, r.value)) != EofVersionUnknown;
      }
    }
  }

  // ---------------------------------------------------------------------
  // The header table

  /** The header walk of a container whose first headers are known to be valid. */
  lemma HeaderWalk(v: Version, hs: seq<SectionHeader>, rest: seq<uint8>)
    requires ValidSoFar(v, hs)
    ensures var b := HeaderPrefix(v, hs, rest);
            ParseHeaders(v, b) == ParseSections(v, b, HeaderTableOffset + 3 * |hs|, hs)
  {
    var b := HeaderPrefix(v, hs, rest);
    assert b[HeaderTableOffset..HeaderTableOffset + 3 * |hs|] == EncodeSections(hs);
    assert [] + hs == hs;
    ParseSkipsEncoded(v, b, HeaderTableOffset, [], hs);
  }

  /** Validation of a container whose first headers are valid is decided by the rest of the walk. */
  lemma ValidateAfterHeaders(v: Version, hs: seq<SectionHeader>, rest: seq<uint8>)
    requires ValidSoFar(v, hs)
    ensures var b := HeaderPrefix(v, hs, rest);
            var r := ParseSections(v, b, HeaderTableOffset + 3 * |hs|, hs);
            r.Err? ==> ValidateEof(b) == r.error
  {
    HeaderWalk(v, hs, rest);
  }

  /**
   * A header table that runs out before its terminator, either between two
   * headers or inside a header whose id passed the kind checks, is rejected
   * as `SectionHeadersNotTerminated`.
   */
  lemma HeadersNotTerminated(v: Version, hs: seq<SectionHeader>, tail: seq<uint8>)
    requires ValidSoFar(v, hs)
    requires tail == [] || (|tail| < 3 && tail[0] != Terminator && CheckKind(v, hs, tail[0]).Ok?)
    ensures ValidateEof(HeaderPrefix(v, hs, tail)) == SectionHeadersNotTerminated
  {
    ValidateAfterHeaders(v, hs, tail);
  }

  /**
   * A terminator, a Data header or a Table header before any Code header is
   * rejected as `CodeSectionMissing` at once, whatever follows it.
   */
  lemma CodeSectionMissingFirst(v: Version, id: uint8, rest: seq<uint8>)
    requires id == Terminator || SectionKindOf(v, id) in {Some(Data), Some(Table)}
    ensures ValidateEof(HeaderPrefix(v, [], [id] + rest)) == CodeSectionMissing
  {
    ValidateAfterHeaders(v, [], [id] + rest);
  }

  /** A second Code header is rejected as `MultipleCodeSections` at once, whatever follows it. */
  lemma SecondCodeSection(v: Version, hs: seq<SectionHeader>, rest: seq<uint8>)
    requires WellFormed(v, hs)
    ensures ValidateEof(HeaderPrefix(v, hs, [KindId(Code)] + rest)) == MultipleCodeSections
  {
    ValidateAfterHeaders(v, hs, [KindId(Code)] + rest);
    assert HasSection(hs, Code) by { assert hs[0].kind == Code; }
  }

  /** A second Data header is rejected as `MultipleDataSections` at once, whatever follows it. */
  lemma SecondDataSection(v: Version, hs: seq<SectionHeader>, rest: seq<uint8>)
    requires WellFormed(v, hs) && HasSection(hs, Data)
    ensures ValidateEof(HeaderPrefix(v, hs, [KindId(Data)] + rest)) == MultipleDataSections
  {
    ValidateAfterHeaders(v, hs, [KindId(Data)] + rest);
    assert HasSection(hs, Code) by { assert hs[0].kind == Code; }
  }

  /**
   * Any header whose id passed the kind checks and whose size is zero is
   * rejected as `ZeroSectionSize` at once, whatever follows it.
   */
  lemma ZeroSizeRejected(v: Version, hs: seq<SectionHeader>, id: uint8, rest: seq<uint8>)
    requires ValidSoFar(v, hs)
    requires id != Terminator && CheckKind(v, hs, id).Ok?
    ensures ValidateEof(HeaderPrefix(v, hs, [id, 0x00, 0x00] + rest)) == ZeroSectionSize
  {
    ValidateAfterHeaders(v, hs, [id, 0x00, 0x00] + rest);
  }

  /** In a version 2 container a Table header of odd size is rejected as `OddTableSectionSize`. */
  lemma OddTableSizeRejected(hs: seq<SectionHeader>, hi: uint8, lo: uint8, rest: seq<uint8>)
    requires WellFormed(Eof2, hs)
    requires SizeOf(hi, lo) % 2 == 1
    ensures ValidateEof(HeaderPrefix(Eof2, hs, [KindId(Table), hi, lo] + rest)) == OddTableSectionSize
  {
    ValidateAfterHeaders(Eof2, hs, [KindId(Table), hi, lo] + rest);
    assert HasSection(hs, Code) by { assert hs[0].kind == Code; }
  }

  /**
   * A section id that the container's version does not know (any id above 3,
   * and the Table id 3 in a version 1 container) is rejected as
   * `UnknownSectionId` at once, whatever follows it.
   */
  lemma UnknownSectionRejected(v: Version, hs: seq<SectionHeader>, id: uint8, rest: seq<uint8>)
    requires ValidSoFar(v, hs)
    requires id > 0x03 || (id == KindId(Table) && v == Eof1)
    ensures ValidateEof(HeaderPrefix(v, hs, [id] + rest)) == UnknownSectionId
  {
    ValidateAfterHeaders(v, hs, [id] + rest);
  }

  // ---------------------------------------------------------------------
  // Whole containers

  /**
   * A container with a well-formed header table is decided by the scan of
   * its code body: the first declared-size bytes after the terminator, or
   * all of them when fewer remain.
   */
  lemma ValidateWellFormed(v: Version, hs: seq<SectionHeader>, body: seq<uint8>)
    requires WellFormed(v, hs)
    ensures ValidateEof(Container(v, hs, body)) == ScanCode(v, body[..Min(hs[0].size, |body|)])
  {
    var b := Container(v, hs, body);
    var off := HeaderTableOffset + 3 * |hs|;
    assert b[HeaderTableOffset..off] == EncodeSections(hs);
    assert b[off] == Terminator;
    ParseEncoded(v, b, hs);
    CodeBodyOfContainer(v, hs, body);
  }

  /**
   * Well-formed headers followed by a code body of well-formed instructions
   * of exactly the declared code size are accepted, whatever bytes follow
   * the code body.
   */
  lemma WellFormedAccepted(v: Version, hs: seq<SectionHeader>, instrs: seq<Instruction>, rest: seq<uint8>)
    requires WellFormed(v, hs)
    requires AllWellFormed(v, instrs) && |Assemble(instrs)| == hs[0].size
    ensures ValidateEof(Container(v, hs, Assemble(instrs) + rest)) == Success
  {
    ValidateWellFormed(v, hs, Assemble(instrs) + rest);
    assert (Assemble(instrs) + rest)[..hs[0].size] == Assemble(instrs);
    AssembledAccepted(v, instrs);
  }

  /**
   * Every accepted container is laid out as magic, a known version, a
   * well-formed header table, the terminator and a body whose code part
   * scans cleanly.
   */
  lemma AcceptedLayout(b: seq<uint8>)
    requires ValidateEof(b) == Success
    ensures HasMagic(b) && |b| > VersionOffset && VersionOf(b[VersionOffset]).Some?
    ensures var v := VersionOf(b[VersionOffset]).value;
            var r := ParseHeaders(v, b);
            && r.Ok?
            && b == Container(v, r.value.sections, b[r.value.bodyOffset..])
            && ScanCode(v, CodeBody(b, r.value)) == Success
  {
    var v := VersionOf(b[VersionOffset]).value;
    var h := ParseHeaders(v, b).value;
    assert b == b[..VersionOffset] + [b[VersionOffset]] + b[HeaderTableOffset..h.bodyOffset] + b[h.bodyOffset..];
  }

  /** A code section of one PUSHn with all n immediate bytes is accepted. */
  lemma CompletePushAccepted(v: Version, op: uint8, imm: seq<uint8>)
    requires Classify(v, op).Push? && |imm| == Classify(v, op).width
    ensures ValidateEof(Container(v, [SectionHeader(Code, 1 + |imm|)], [op] + imm)) == Success
  {
    var instrs := [Instruction(op, imm)];
    assert WellFormedInstruction(v, instrs[0]);
    assert Assemble(instrs) == [op] + imm + [];
    WellFormedAccepted(v, [SectionHeader(Code, 1 + |imm|)], instrs, []);
    assert [op] + imm + [] == [op] + imm;
  }

  /** A code section of one PUSHn with fewer than n immediate bytes is a truncated push. */
  lemma TruncatedPushRejected(v: Version, op: uint8, imm: seq<uint8>)
    requires Classify(v, op).Push? && |imm| < Classify(v, op).width
    ensures ValidateEof(Container(v, [SectionHeader(Code, 1 + |imm|)], [op] + imm)) == TruncatedPush
  {
    var hs := [SectionHeader(Code, 1 + |imm|)];
    ValidateWellFormed(v, hs, [op] + imm);
    assert ([op] + imm)[..1 + |imm|] == Assemble([]) + [op] + imm;
    TruncatedPushAfterPrefix(v, [], op, imm);
  }

  /**
   * In a version 2 container, a code section of one relative jump with fewer
   * than two immediate bytes misses its immediate argument.
   */
  lemma TruncatedJumpRejected(op: uint8, imm: seq<uint8>)
    requires RJump <= op <= RJumpTable && |imm| < RelativeJumpImmediateSize
    ensures ValidateEof(Container(Eof2, [SectionHeader(Code, 1 + |imm|)], [op] + imm)) == MissingImmediateArgument
  {
    var hs := [SectionHeader(Code, 1 + |imm|)];
    ValidateWellFormed(Eof2, hs, [op] + imm);
    assert ([op] + imm)[..1 + |imm|] == Assemble([]) + [op] + imm;
    MissingImmediateAfterPrefix(Eof2, [], op, imm);
  }

  /** A code section that starts with an undefined opcode is rejected, whatever follows it. */
  lemma UndefinedOpcodeRejected(v: Version, op: uint8, rest: seq<uint8>)
    requires Classify(v, op) == Undefined && 1 + |rest| <= MaxSectionSize
    ensures ValidateEof(Container(v, [SectionHeader(Code, 1 + |rest|)], [op] + rest)) == UndefinedInstruction
  {
    var hs := [SectionHeader(Code, 1 + |rest|)];
    ValidateWellFormed(v, hs, [op] + rest);
    assert ([op] + rest)[..1 + |rest|] == Assemble([]) + [op] + rest;
    UndefinedAfterPrefix(v, [], op, rest);
  }
}
