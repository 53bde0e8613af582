/**
 * The expectations of test/unittests/eof_validation_test.cpp, one lemma per
 * expectation, named after its test case and numbered in order within it.
 * Each lemma is proved through the general lemma of `EofValidation` for
 * the rule its expectation exercises.
 *
 * The hex string is the lemma's parameter, fixed by its `requires`, rather
 * than an argument written inside the `ensures`: that keeps the long literal
 * out of the proof obligation that unfolds the container layout. Each
 * expectation past the version check comes with a helper lemma that reads
 * the hex string as such a layout (its version, its header table and the
 * bytes after the terminator) with every argument written out, so that
 * Dafny evaluates it on its own.
 */
module EofValidationVectors {
  import opened Eof
  import opened SectionHeaders
  import opened CodeScanner
  import opened EofValidation

  /** `n` zero bytes, as the long zero immediates of the push tests are written. */
  function Zeros(n: nat): (z: seq<uint8>)
    ensures |z| == n && forall i | 0 <= i < n :: z[i] == 0x00
  {
    seq(n, _ => 0x00)
  }

  // line 21
  lemma ValidateEmptyCode(b: seq<uint8>)
    requires b == []
    ensures ValidateEof(b) == InvalidPrefix
  {
    InvalidPrefixIff(b);
  }

  // line 26
  lemma ValidateEofPrefix1(b: seq<uint8>)
    requires b == [0x00]
    ensures ValidateEof(b) == InvalidPrefix
  {
    InvalidPrefixIff(b);
  }

  // line 27
  lemma ValidateEofPrefix2(b: seq<uint8>)
    requires b == [0xFE]
    ensures ValidateEof(b) == InvalidPrefix
  {
    InvalidPrefixIff(b);
  }

  // line 28
  lemma ValidateEofPrefix3(b: seq<uint8>)
    requires b == [0xEF]
    ensures ValidateEof(b) == InvalidPrefix
  {
    InvalidPrefixIff(b);
  }

  // line 30
  lemma ValidateEofPrefix4(b: seq<uint8>)
    requires b == [0xEF, 0xCA]
    ensures ValidateEof(b) == InvalidPrefix
  {
    InvalidPrefixIff(b);
  }

  // line 31
  lemma ValidateEofPrefix5(b: seq<uint8>)
    requires b == [0xEF, 0xCB, 0xFE, 0x01]
    ensures ValidateEof(b) == InvalidPrefix
  {
    InvalidPrefixIff(b);
  }

  // line 32
  lemma ValidateEofPrefix6(b: seq<uint8>)
    requires b == [0xEF, 0xCA, 0xFF, 0x01]
    ensures ValidateEof(b) == InvalidPrefix
  {
    InvalidPrefixIff(b);
  }

  // line 34
  lemma ValidateEofPrefix7(b: seq<uint8>)
    requires b == [0xEF, 0xCA, 0xFE]
    ensures ValidateEof(b) == EofVersionUnknown
  {
    VersionUnknownIff(b);
  }

  // lines 36-37
  lemma ValidateEofPrefix8Layout()
    ensures HeaderPrefix(Eof1, [], []) == [0xEF, 0xCA, 0xFE, 0x01]
  {
  }

  lemma ValidateEofPrefix8(b: seq<uint8>)
    requires b == [0xEF, 0xCA, 0xFE, 0x01]
    ensures ValidateEof(b) == SectionHeadersNotTerminated
  {
    ValidateEofPrefix8Layout();
    HeadersNotTerminated(Eof1, [], []);
  }

  // lines 38-39
  lemma ValidateEofPrefix9Layout()
    ensures HeaderPrefix(Eof2, [], []) == [0xEF, 0xCA, 0xFE, 0x02]
  {
  }

  lemma ValidateEofPrefix9(b: seq<uint8>)
    requires b == [0xEF, 0xCA, 0xFE, 0x02]
    ensures ValidateEof(b) == SectionHeadersNotTerminated
  {
    ValidateEofPrefix9Layout();
    HeadersNotTerminated(Eof2, [], []);
  }

  // line 46
  lemma ValidateEofVersion1(b: seq<uint8>)
    requires b == [0xEF, 0xCA, 0xFE, 0x03]
    ensures ValidateEof(b) == EofVersionUnknown
  {
    VersionUnknownIff(b);
  }

  // line 47
  lemma ValidateEofVersion2(b: seq<uint8>)
    requires b == [0xEF, 0xCA, 0xFE, 0xFF]
    ensures ValidateEof(b) == EofVersionUnknown
  {
    VersionUnknownIff(b);
  }

  // line 52
  lemma MinimalValidEof1CodeLayout()
    ensures Container(Eof1, [SectionHeader(Code, 1)], Assemble([Instruction(0xFE, [])]) + []) == [0xEF, 0xCA, 0xFE, 0x01, 0x01, 0x00, 0x01, 0x00, 0xFE]
  {
  }

  lemma MinimalValidEof1Code(b: seq<uint8>)
    requires b == [0xEF, 0xCA, 0xFE, 0x01, 0x01, 0x00, 0x01, 0x00, 0xFE]
    ensures ValidateEof(b) == Success
  {
    MinimalValidEof1CodeLayout();
    WellFormedAccepted(Eof1, [SectionHeader(Code, 1)], [Instruction(0xFE, [])], []);
  }

  // lines 57-58
  lemma MinimalValidEof1CodeWithDataLayout()
    ensures Container(Eof1, [SectionHeader(Code, 1), SectionHeader(Data, 1)], Assemble([Instruction(0xFE, [])]) + [0xDA]) == [0xEF, 0xCA, 0xFE, 0x01, 0x01, 0x00, 0x01, 0x02, 0x00, 0x01, 0x00, 0xFE, 0xDA]
  {
  }

  lemma MinimalValidEof1CodeWithData(b: seq<uint8>)
    requires b == [0xEF, 0xCA, 0xFE, 0x01, 0x01, 0x00, 0x01, 0x02, 0x00, 0x01, 0x00, 0xFE, 0xDA]
    ensures ValidateEof(b) == Success
  {
    MinimalValidEof1CodeWithDataLayout();
    WellFormedAccepted(Eof1, [SectionHeader(Code, 1), SectionHeader(Data, 1)], [Instruction(0xFE, [])], [0xDA]);
  }

  // line 63
  lemma Eof1CodeSectionMissing1Layout()
    ensures HeaderPrefix(Eof1, [], [0x00] + []) == [0xEF, 0xCA, 0xFE, 0x01, 0x00]
  {
  }

  lemma Eof1CodeSectionMissing1(b: seq<uint8>)
    requires b == [0xEF, 0xCA, 0xFE, 0x01, 0x00]
    ensures ValidateEof(b) == CodeSectionMissing
  {
    Eof1CodeSectionMissing1Layout();
    CodeSectionMissingFirst(Eof1, 0x00, []);
  }

  // lines 64-65
  lemma Eof1CodeSectionMissing2Layout()
    ensures HeaderPrefix(Eof1, [], [0x02] + [0x00, 0x01, 0xDA]) == [0xEF, 0xCA, 0xFE, 0x01, 0x02, 0x00, 0x01, 0xDA]
  {
  }

  lemma Eof1CodeSectionMissing2(b: seq<uint8>)
    requires b == [0xEF, 0xCA, 0xFE, 0x01, 0x02, 0x00, 0x01, 0xDA]
    ensures ValidateEof(b) == CodeSectionMissing
  {
    Eof1CodeSectionMissing2Layout();
    CodeSectionMissingFirst(Eof1, 0x02, [0x00, 0x01, 0xDA]);
  }

  // lines 70-71
  lemma Eof1CodeSection0SizeLayout()
    ensures HeaderPrefix(Eof1, [], [0x01, 0x00, 0x00] + [0x02, 0x00, 0x01, 0x00, 0xDA]) == [0xEF, 0xCA, 0xFE, 0x01, 0x01, 0x00, 0x00, 0x02, 0x00, 0x01, 0x00, 0xDA]
  {
  }

  lemma Eof1CodeSection0Size(b: seq<uint8>)
    requires b == [0xEF, 0xCA, 0xFE, 0x01, 0x01, 0x00, 0x00, 0x02, 0x00, 0x01, 0x00, 0xDA]
    ensures ValidateEof(b) == ZeroSectionSize
  {
    Eof1CodeSection0SizeLayout();
    ZeroSizeRejected(Eof1, [], 0x01, [0x02, 0x00, 0x01, 0x00, 0xDA]);
  }

  // lines 76-77
  lemma Eof1DataSection0SizeLayout()
    ensures HeaderPrefix(Eof1, [SectionHeader(Code, 1)], [0x02, 0x00, 0x00] + [0x00, 0xFE]) == [0xEF, 0xCA, 0xFE, 0x01, 0x01, 0x00, 0x01, 0x02, 0x00, 0x00, 0x00, 0xFE]
  {
  }

  lemma Eof1DataSection0Size(b: seq<uint8>)
    requires b == [0xEF, 0xCA, 0xFE, 0x01, 0x01, 0x00, 0x01, 0x02, 0x00, 0x00, 0x00, 0xFE]
    ensures ValidateEof(b) == ZeroSectionSize
  {
    Eof1DataSection0SizeLayout();
    ZeroSizeRejected(Eof1, [SectionHeader(Code, 1)], 0x02, [0x00, 0xFE]);
  }

  // lines 82-83
  lemma Eof1MultipleCodeSections1Layout()
    ensures HeaderPrefix(Eof1, [SectionHeader(Code, 1)], [KindId(Code)] + [0x00, 0x01, 0x00, 0xFE, 0xFE]) == [0xEF, 0xCA, 0xFE, 0x01, 0x01, 0x00, 0x01, 0x01, 0x00, 0x01, 0x00, 0xFE, 0xFE]
  {
  }

  lemma Eof1MultipleCodeSections1(b: seq<uint8>)
    requires b == [0xEF, 0xCA, 0xFE, 0x01, 0x01, 0x00, 0x01, 0x01, 0x00, 0x01, 0x00, 0xFE, 0xFE]
    ensures ValidateEof(b) == MultipleCodeSections
  {
    Eof1MultipleCodeSections1Layout();
    SecondCodeSection(Eof1, [SectionHeader(Code, 1)], [0x00, 0x01, 0x00, 0xFE, 0xFE]);
  }

  // lines 84-85
  lemma Eof1MultipleCodeSections2Layout()
    ensures HeaderPrefix(Eof1, [SectionHeader(Code, 1)], [KindId(Code)] + [0x00, 0x01, 0x02, 0x00, 0x01, 0x00, 0xFE, 0xFE, 0xDA]) == [0xEF, 0xCA, 0xFE, 0x01, 0x01, 0x00, 0x01, 0x01, 0x00, 0x01, 0x02, 0x00, 0x01, 0x00, 0xFE, 0xFE, 0xDA]
  {
  }

  lemma Eof1MultipleCodeSections2(b: seq<uint8>)
    requires b == [0xEF, 0xCA, 0xFE, 0x01, 0x01, 0x00, 0x01, 0x01, 0x00, 0x01, 0x02, 0x00, 0x01, 0x00, 0xFE, 0xFE, 0xDA]
    ensures ValidateEof(b) == MultipleCodeSections
  {
    Eof1MultipleCodeSections2Layout();
    SecondCodeSection(Eof1, [SectionHeader(Code, 1)], [0x00, 0x01, 0x02, 0x00, 0x01, 0x00, 0xFE, 0xFE, 0xDA]);
  }

  // lines 90-91
  lemma Eof1MultipleDataSectionsLayout()
    ensures HeaderPrefix(Eof1, [SectionHeader(Code, 1), SectionHeader(Data, 1)], [KindId(Data)] + [0x00, 0x01, 0x00, 0xFE, 0xDA, 0xDA]) == [0xEF, 0xCA, 0xFE, 0x01, 0x01, 0x00, 0x01, 0x02, 0x00, 0x01, 0x02, 0x00, 0x01, 0x00, 0xFE, 0xDA, 0xDA]
  {
  }

  lemma Eof1MultipleDataSections(b: seq<uint8>)
    requires b == [0xEF, 0xCA, 0xFE, 0x01, 0x01, 0x00, 0x01, 0x02, 0x00, 0x01, 0x02, 0x00, 0x01, 0x00, 0xFE, 0xDA, 0xDA]
    ensures ValidateEof(b) == MultipleDataSections
  {
    var hs: seq<SectionHeader> := [SectionHeader(Code, 1), SectionHeader(Data, 1)];
    assert HasSection(hs, Data) by { assert hs[1].kind == Data; }
    Eof1MultipleDataSectionsLayout();
    SecondDataSection(Eof1, hs, [0x00, 0x01, 0x00, 0xFE, 0xDA, 0xDA]);
  }

  // lines 96-97
  lemma Eof1TableSection1Layout()
    ensures HeaderPrefix(Eof1, [SectionHeader(Code, 1)], [0x03] + [0x00, 0x02, 0x00, 0xFE, 0x00, 0x01]) == [0xEF, 0xCA, 0xFE, 0x01, 0x01, 0x00, 0x01, 0x03, 0x00, 0x02, 0x00, 0xFE, 0x00, 0x01]
  {
  }

  lemma Eof1TableSection1(b: seq<uint8>)
    requires b == [0xEF, 0xCA, 0xFE, 0x01, 0x01, 0x00, 0x01, 0x03, 0x00, 0x02, 0x00, 0xFE, 0x00, 0x01]
    ensures ValidateEof(b) == UnknownSectionId
  {
    Eof1TableSection1Layout();
    UnknownSectionRejected(Eof1, [SectionHeader(Code, 1)], 0x03, [0x00, 0x02, 0x00, 0xFE, 0x00, 0x01]);
  }

  // lines 99-100
  lemma Eof1TableSection2Layout()
    ensures HeaderPrefix(Eof1, [SectionHeader(Code, 1), SectionHeader(Data, 1)], [0x03] + [0x00, 0x02, 0x00, 0xFE, 0xDA, 0x00, 0x01]) == [0xEF, 0xCA, 0xFE, 0x01, 0x01, 0x00, 0x01, 0x02, 0x00, 0x01, 0x03, 0x00, 0x02, 0x00, 0xFE, 0xDA, 0x00, 0x01]
  {
  }

  lemma Eof1TableSection2(b: seq<uint8>)
    requires b == [0xEF, 0xCA, 0xFE, 0x01, 0x01, 0x00, 0x01, 0x02, 0x00, 0x01, 0x03, 0x00, 0x02, 0x00, 0xFE, 0xDA, 0x00, 0x01]
    ensures ValidateEof(b) == UnknownSectionId
  {
    Eof1TableSection2Layout();
    UnknownSectionRejected(Eof1, [SectionHeader(Code, 1), SectionHeader(Data, 1)], 0x03, [0x00, 0x02, 0x00, 0xFE, 0xDA, 0x00, 0x01]);
  }

  // lines 107-108
  lemma Eof1UndefinedOpcodes1Layout()
    ensures Container(Eof1, [SectionHeader(Code, 1)], [0x0C] + []) == [0xEF, 0xCA, 0xFE, 0x01, 0x01, 0x00, 0x01, 0x00, 0x0C]
  {
  }

  lemma Eof1UndefinedOpcodes1(b: seq<uint8>)
    requires b == [0xEF, 0xCA, 0xFE, 0x01, 0x01, 0x00, 0x01, 0x00, 0x0C]
    ensures ValidateEof(b) == UndefinedInstruction
  {
    Eof1UndefinedOpcodes1Layout();
    UndefinedOpcodeRejected(Eof1, 0x0C, []);
  }

  // lines 109-110
  lemma Eof1UndefinedOpcodes2Layout()
    ensures Container(Eof1, [SectionHeader(Code, 1)], [0x21] + []) == [0xEF, 0xCA, 0xFE, 0x01, 0x01, 0x00, 0x01, 0x00, 0x21]
  {
  }

  lemma Eof1UndefinedOpcodes2(b: seq<uint8>)
    requires b == [0xEF, 0xCA, 0xFE, 0x01, 0x01, 0x00, 0x01, 0x00, 0x21]
    ensures ValidateEof(b) == UndefinedInstruction
  {
    Eof1UndefinedOpcodes2Layout();
    UndefinedOpcodeRejected(Eof1, 0x21, []);
  }

  // lines 111-112
  lemma Eof1UndefinedOpcodes3Layout()
    ensures Container(Eof1, [SectionHeader(Code, 1)], [0xB0] + []) == [0xEF, 0xCA, 0xFE, 0x01, 0x01, 0x00, 0x01, 0x00, 0xB0]
  {
  }

  lemma Eof1UndefinedOpcodes3(b: seq<uint8>)
    requires b == [0xEF, 0xCA, 0xFE, 0x01, 0x01, 0x00, 0x01, 0x00, 0xB0]
    ensures ValidateEof(b) == UndefinedInstruction
  {
    Eof1UndefinedOpcodes3Layout();
    UndefinedOpcodeRejected(Eof1, 0xB0, []);
  }

  // lines 113-114
  lemma Eof1UndefinedOpcodes4Layout()
    ensures Container(Eof1, [SectionHeader(Code, 1)], [0xC0] + []) == [0xEF, 0xCA, 0xFE, 0x01, 0x01, 0x00, 0x01, 0x00, 0xC0]
  {
  }

  lemma Eof1UndefinedOpcodes4(b: seq<uint8>)
    requires b == [0xEF, 0xCA, 0xFE, 0x01, 0x01, 0x00, 0x01, 0x00, 0xC0]
    ensures ValidateEof(b) == UndefinedInstruction
  {
    Eof1UndefinedOpcodes4Layout();
    UndefinedOpcodeRejected(Eof1, 0xC0, []);
  }

  // lines 115-116
  lemma Eof1UndefinedOpcodes5Layout()
    ensures Container(Eof1, [SectionHeader(Code, 1)], [0xEF] + []) == [0xEF, 0xCA, 0xFE, 0x01, 0x01, 0x00, 0x01, 0x00, 0xEF]
  {
  }

  lemma Eof1UndefinedOpcodes5(b: seq<uint8>)
    requires b == [0xEF, 0xCA, 0xFE, 0x01, 0x01, 0x00, 0x01, 0x00, 0xEF]
    ensures ValidateEof(b) == UndefinedInstruction
  {
    Eof1UndefinedOpcodes5Layout();
    UndefinedOpcodeRejected(Eof1, 0xEF, []);
  }

  // line 118
  lemma Eof1UndefinedOpcodes6Layout()
    ensures Container(Eof1, [SectionHeader(Code, 1)], Assemble([Instruction(0xFE, [])]) + []) == [0xEF, 0xCA, 0xFE, 0x01, 0x01, 0x00, 0x01, 0x00, 0xFE]
  {
  }

  lemma Eof1UndefinedOpcodes6(b: seq<uint8>)
    requires b == [0xEF, 0xCA, 0xFE, 0x01, 0x01, 0x00, 0x01, 0x00, 0xFE]
    ensures ValidateEof(b) == Success
  {
    Eof1UndefinedOpcodes6Layout();
    WellFormedAccepted(Eof1, [SectionHeader(Code, 1)], [Instruction(0xFE, [])], []);
  }

  // line 125
  lemma Eof1TruncatedPush1Layout()
    ensures Container(Eof1, [SectionHeader(Code, 1)], [0x60] + []) == [0xEF, 0xCA, 0xFE, 0x01, 0x01, 0x00, 0x01, 0x00, 0x60]
  {
  }

  lemma Eof1TruncatedPush1(b: seq<uint8>)
    requires b == [0xEF, 0xCA, 0xFE, 0x01, 0x01, 0x00, 0x01, 0x00, 0x60]
    ensures ValidateEof(b) == TruncatedPush
  {
    Eof1TruncatedPush1Layout();
    TruncatedPushRejected(Eof1, 0x60, []);
  }

  // line 127
  lemma Eof1TruncatedPush2Layout()
    ensures Container(Eof1, [SectionHeader(Code, 1)], [0x61] + []) == [0xEF, 0xCA, 0xFE, 0x01, 0x01, 0x00, 0x01, 0x00, 0x61]
  {
  }

  lemma Eof1TruncatedPush2(b: seq<uint8>)
    requires b == [0xEF, 0xCA, 0xFE, 0x01, 0x01, 0x00, 0x01, 0x00, 0x61]
    ensures ValidateEof(b) == TruncatedPush
  {
    Eof1TruncatedPush2Layout();
    TruncatedPushRejected(Eof1, 0x61, []);
  }

  // lines 128-129
  lemma Eof1TruncatedPush3Layout()
    ensures Container(Eof1, [SectionHeader(Code, 2)], [0x61] + [0x00]) == [0xEF, 0xCA, 0xFE, 0x01, 0x01, 0x00, 0x02, 0x00, 0x61, 0x00]
  {
  }

  lemma Eof1TruncatedPush3(b: seq<uint8>)
    requires b == [0xEF, 0xCA, 0xFE, 0x01, 0x01, 0x00, 0x02, 0x00, 0x61, 0x00]
    ensures ValidateEof(b) == TruncatedPush
  {
    Eof1TruncatedPush3Layout();
    TruncatedPushRejected(Eof1, 0x61, [0x00]);
  }

  // line 131
  lemma Eof1TruncatedPush4Layout()
    ensures Container(Eof1, [SectionHeader(Code, 1)], [0x62] + []) == [0xEF, 0xCA, 0xFE, 0x01, 0x01, 0x00, 0x01, 0x00, 0x62]
  {
  }

  lemma Eof1TruncatedPush4(b: seq<uint8>)
    requires b == [0xEF, 0xCA, 0xFE, 0x01, 0x01, 0x00, 0x01, 0x00, 0x62]
    ensures ValidateEof(b) == TruncatedPush
  {
    Eof1TruncatedPush4Layout();
    TruncatedPushRejected(Eof1, 0x62, []);
  }

  // lines 132-133
  lemma Eof1TruncatedPush5Layout()
    ensures Container(Eof1, [SectionHeader(Code, 2)], [0x62] + [0x00]) == [0xEF, 0xCA, 0xFE, 0x01, 0x01, 0x00, 0x02, 0x00, 0x62, 0x00]
  {
  }

  lemma Eof1TruncatedPush5(b: seq<uint8>)
    requires b == [0xEF, 0xCA, 0xFE, 0x01, 0x01, 0x00, 0x02, 0x00, 0x62, 0x00]
    ensures ValidateEof(b) == TruncatedPush
  {
    Eof1TruncatedPush5Layout();
    TruncatedPushRejected(Eof1, 0x62, [0x00]);
  }

  // lines 134-135
  lemma Eof1TruncatedPush6Layout()
    ensures Container(Eof1, [SectionHeader(Code, 3)], [0x62] + [0x00, 0x00]) == [0xEF, 0xCA, 0xFE, 0x01, 0x01, 0x00, 0x03, 0x00, 0x62, 0x00, 0x00]
  {
  }

  lemma Eof1TruncatedPush6(b: seq<uint8>)
    requires b == [0xEF, 0xCA, 0xFE, 0x01, 0x01, 0x00, 0x03, 0x00, 0x62, 0x00, 0x00]
    ensures ValidateEof(b) == TruncatedPush
  {
    Eof1TruncatedPush6Layout();
    TruncatedPushRejected(Eof1, 0x62, [0x00, 0x00]);
  }

  // lines 137-140
  lemma Eof1TruncatedPush7Layout()
    ensures Container(Eof1, [SectionHeader(Code, 32)], [0x7F] + Zeros(31)) == [0xEF, 0xCA, 0xFE, 0x01, 0x01, 0x00, 0x20, 0x00, 0x7F] + Zeros(31)
  {
  }

  lemma Eof1TruncatedPush7(b: seq<uint8>)
    requires b == [0xEF, 0xCA, 0xFE, 0x01, 0x01, 0x00, 0x20, 0x00, 0x7F] + Zeros(31)
    ensures ValidateEof(b) == TruncatedPush
  {
    Eof1TruncatedPush7Layout();
    TruncatedPushRejected(Eof1, 0x7F, Zeros(31));
  }

  // line 147
  lemma Eof1CompletePush1Layout()
    ensures Container(Eof1, [SectionHeader(Code, 2)], [0x60] + [0x00]) == [0xEF, 0xCA, 0xFE, 0x01, 0x01, 0x00, 0x02, 0x00, 0x60, 0x00]
  {
  }

  lemma Eof1CompletePush1(b: seq<uint8>)
    requires b == [0xEF, 0xCA, 0xFE, 0x01, 0x01, 0x00, 0x02, 0x00, 0x60, 0x00]
    ensures ValidateEof(b) == Success
  {
    Eof1CompletePush1Layout();
    CompletePushAccepted(Eof1, 0x60, [0x00]);
  }

  // line 148
  lemma Eof1CompletePush2Layout()
    ensures Container(Eof1, [SectionHeader(Code, 3)], [0x61] + [0x00, 0x00]) == [0xEF, 0xCA, 0xFE, 0x01, 0x01, 0x00, 0x03, 0x00, 0x61, 0x00, 0x00]
  {
  }

  lemma Eof1CompletePush2(b: seq<uint8>)
    requires b == [0xEF, 0xCA, 0xFE, 0x01, 0x01, 0x00, 0x03, 0x00, 0x61, 0x00, 0x00]
    ensures ValidateEof(b) == Success
  {
    Eof1CompletePush2Layout();
    CompletePushAccepted(Eof1, 0x61, [0x00, 0x00]);
  }

  // line 149
  lemma Eof1CompletePush3Layout()
    ensures Container(Eof1, [SectionHeader(Code, 4)], [0x62] + [0x00, 0x00, 0x00]) == [0xEF, 0xCA, 0xFE, 0x01, 0x01, 0x00, 0x04, 0x00, 0x62, 0x00, 0x00, 0x00]
  {
  }

  lemma Eof1CompletePush3(b: seq<uint8>)
    requires b == [0xEF, 0xCA, 0xFE, 0x01, 0x01, 0x00, 0x04, 0x00, 0x62, 0x00, 0x00, 0x00]
    ensures ValidateEof(b) == Success
  {
    Eof1CompletePush3Layout();
    CompletePushAccepted(Eof1, 0x62, [0x00, 0x00, 0x00]);
  }

  // lines 150-151
  lemma Eof1CompletePush4Layout()
    ensures Container(Eof1, [SectionHeader(Code, 5)], [0x63] + [0x00, 0x00, 0x00, 0x00]) == [0xEF, 0xCA, 0xFE, 0x01, 0x01, 0x00, 0x05, 0x00, 0x63, 0x00, 0x00, 0x00, 0x00]
  {
  }

  lemma Eof1CompletePush4(b: seq<uint8>)
    requires b == [0xEF, 0xCA, 0xFE, 0x01, 0x01, 0x00, 0x05, 0x00, 0x63, 0x00, 0x00, 0x00, 0x00]
    ensures ValidateEof(b) == Success
  {
    Eof1CompletePush4Layout();
    CompletePushAccepted(Eof1, 0x63, [0x00, 0x00, 0x00, 0x00]);
  }

  // lines 152-155
  lemma Eof1CompletePush5Layout()
    ensures Container(Eof1, [SectionHeader(Code, 33)], [0x7F] + Zeros(32)) == [0xEF, 0xCA, 0xFE, 0x01, 0x01, 0x00, 0x21, 0x00, 0x7F] + Zeros(32)
  {
  }

  lemma Eof1CompletePush5(b: seq<uint8>)
    requires b == [0xEF, 0xCA, 0xFE, 0x01, 0x01, 0x00, 0x21, 0x00, 0x7F] + Zeros(32)
    ensures ValidateEof(b) == Success
  {
    Eof1CompletePush5Layout();
    CompletePushAccepted(Eof1, 0x7F, Zeros(32));
  }

  // line 160
  lemma MinimalValidEof21Layout()
    ensures Container(Eof2, [SectionHeader(Code, 1)], Assemble([Instruction(0xFE, [])]) + []) == [0xEF, 0xCA, 0xFE, 0x02, 0x01, 0x00, 0x01, 0x00, 0xFE]
  {
  }

  lemma MinimalValidEof21(b: seq<uint8>)
    requires b == [0xEF, 0xCA, 0xFE, 0x02, 0x01, 0x00, 0x01, 0x00, 0xFE]
    ensures ValidateEof(b) == Success
  {
    MinimalValidEof21Layout();
    WellFormedAccepted(Eof2, [SectionHeader(Code, 1)], [Instruction(0xFE, [])], []);
  }

  // lines 162-163
  lemma MinimalValidEof22Layout()
    ensures Container(Eof2, [SectionHeader(Code, 1), SectionHeader(Data, 1)], Assemble([Instruction(0xFE, [])]) + [0xDA]) == [0xEF, 0xCA, 0xFE, 0x02, 0x01, 0x00, 0x01, 0x02, 0x00, 0x01, 0x00, 0xFE, 0xDA]
  {
  }

  lemma MinimalValidEof22(b: seq<uint8>)
    requires b == [0xEF, 0xCA, 0xFE, 0x02, 0x01, 0x00, 0x01, 0x02, 0x00, 0x01, 0x00, 0xFE, 0xDA]
    ensures ValidateEof(b) == Success
  {
    MinimalValidEof22Layout();
    WellFormedAccepted(Eof2, [SectionHeader(Code, 1), SectionHeader(Data, 1)], [Instruction(0xFE, [])], [0xDA]);
  }

  // lines 165-166
  lemma MinimalValidEof23Layout()
    ensures Container(Eof2, [SectionHeader(Code, 1), SectionHeader(Table, 2)], Assemble([Instruction(0xFE, [])]) + [0x00, 0x01]) == [0xEF, 0xCA, 0xFE, 0x02, 0x01, 0x00, 0x01, 0x03, 0x00, 0x02, 0x00, 0xFE, 0x00, 0x01]
  {
  }

  lemma MinimalValidEof23(b: seq<uint8>)
    requires b == [0xEF, 0xCA, 0xFE, 0x02, 0x01, 0x00, 0x01, 0x03, 0x00, 0x02, 0x00, 0xFE, 0x00, 0x01]
    ensures ValidateEof(b) == Success
  {
    MinimalValidEof23Layout();
    WellFormedAccepted(Eof2, [SectionHeader(Code, 1), SectionHeader(Table, 2)], [Instruction(0xFE, [])], [0x00, 0x01]);
  }

  // lines 168-169
  lemma MinimalValidEof24Layout()
    ensures Container(Eof2, [SectionHeader(Code, 1), SectionHeader(Data, 1), SectionHeader(Table, 2)], Assemble([Instruction(0xFE, [])]) + [0xDA, 0x00, 0x01]) == [0xEF, 0xCA, 0xFE, 0x02, 0x01, 0x00, 0x01, 0x02, 0x00, 0x01, 0x03, 0x00, 0x02, 0x00, 0xFE, 0xDA, 0x00, 0x01]
  {
  }

  lemma MinimalValidEof24(b: seq<uint8>)
    requires b == [0xEF, 0xCA, 0xFE, 0x02, 0x01, 0x00, 0x01, 0x02, 0x00, 0x01, 0x03, 0x00, 0x02, 0x00, 0xFE, 0xDA, 0x00, 0x01]
    ensures ValidateEof(b) == Success
  {
    MinimalValidEof24Layout();
    WellFormedAccepted(Eof2, [SectionHeader(Code, 1), SectionHeader(Data, 1), SectionHeader(Table, 2)], [Instruction(0xFE, [])], [0xDA, 0x00, 0x01]);
  }

  // lines 174-175
  lemma MultipleTableSections1Layout()
    ensures Container(Eof2, [SectionHeader(Code, 1), SectionHeader(Table, 2), SectionHeader(Table, 4)], Assemble([Instruction(0xFE, [])]) + [0x00, 0x01, 0x00, 0x01, 0x00, 0x02]) == [0xEF, 0xCA, 0xFE, 0x02, 0x01, 0x00, 0x01, 0x03, 0x00, 0x02, 0x03, 0x00, 0x04, 0x00, 0xFE, 0x00, 0x01, 0x00, 0x01, 0x00, 0x02]
  {
  }

  lemma MultipleTableSections1(b: seq<uint8>)
    requires b == [0xEF, 0xCA, 0xFE, 0x02, 0x01, 0x00, 0x01, 0x03, 0x00, 0x02, 0x03, 0x00, 0x04, 0x00, 0xFE, 0x00, 0x01, 0x00, 0x01, 0x00, 0x02]
    ensures ValidateEof(b) == Success
  {
    MultipleTableSections1Layout();
    WellFormedAccepted(Eof2, [SectionHeader(Code, 1), SectionHeader(Table, 2), SectionHeader(Table, 4)], [Instruction(0xFE, [])], [0x00, 0x01, 0x00, 0x01, 0x00, 0x02]);
  }

  // lines 177-178
  lemma MultipleTableSections2Layout()
    ensures Container(Eof2, [SectionHeader(Code, 1), SectionHeader(Data, 1), SectionHeader(Table, 2), SectionHeader(Table, 4)], Assemble([Instruction(0xFE, [])]) + [0xDA, 0x00, 0x01, 0x00, 0x01, 0x00, 0x02]) == [0xEF, 0xCA, 0xFE, 0x02, 0x01, 0x00, 0x01, 0x02, 0x00, 0x01, 0x03, 0x00, 0x02, 0x03, 0x00, 0x04, 0x00, 0xFE, 0xDA, 0x00, 0x01, 0x00, 0x01, 0x00, 0x02]
  {
  }

  lemma MultipleTableSections2(b: seq<uint8>)
    requires b == [0xEF, 0xCA, 0xFE, 0x02, 0x01, 0x00, 0x01, 0x02, 0x00, 0x01, 0x03, 0x00, 0x02, 0x03, 0x00, 0x04, 0x00, 0xFE, 0xDA, 0x00, 0x01, 0x00, 0x01, 0x00, 0x02]
    ensures ValidateEof(b) == Success
  {
    MultipleTableSections2Layout();
    WellFormedAccepted(Eof2, [SectionHeader(Code, 1), SectionHeader(Data, 1), SectionHeader(Table, 2), SectionHeader(Table, 4)], [Instruction(0xFE, [])], [0xDA, 0x00, 0x01, 0x00, 0x01, 0x00, 0x02]);
  }

  // lines 183-184
  lemma Eof2TableSection0Size1Layout()
    ensures HeaderPrefix(Eof2, [SectionHeader(Code, 1)], [0x03, 0x00, 0x00] + [0x00, 0xFE]) == [0xEF, 0xCA, 0xFE, 0x02, 0x01, 0x00, 0x01, 0x03, 0x00, 0x00, 0x00, 0xFE]
  {
  }

  lemma Eof2TableSection0Size1(b: seq<uint8>)
    requires b == [0xEF, 0xCA, 0xFE, 0x02, 0x01, 0x00, 0x01, 0x03, 0x00, 0x00, 0x00, 0xFE]
    ensures ValidateEof(b) == ZeroSectionSize
  {
    Eof2TableSection0Size1Layout();
    ZeroSizeRejected(Eof2, [SectionHeader(Code, 1)], 0x03, [0x00, 0xFE]);
  }

  // lines 186-187
  lemma Eof2TableSection0Size2Layout()
    ensures HeaderPrefix(Eof2, [SectionHeader(Code, 1), SectionHeader(Table, 2)], [0x03, 0x00, 0x00] + [0x00, 0xFE, 0x00, 0x00]) == [0xEF, 0xCA, 0xFE, 0x02, 0x01, 0x00, 0x01, 0x03, 0x00, 0x02, 0x03, 0x00, 0x00, 0x00, 0xFE, 0x00, 0x00]
  {
  }

  lemma Eof2TableSection0Size2(b: seq<uint8>)
    requires b == [0xEF, 0xCA, 0xFE, 0x02, 0x01, 0x00, 0x01, 0x03, 0x00, 0x02, 0x03, 0x00, 0x00, 0x00, 0xFE, 0x00, 0x00]
    ensures ValidateEof(b) == ZeroSectionSize
  {
    Eof2TableSection0Size2Layout();
    ZeroSizeRejected(Eof2, [SectionHeader(Code, 1), SectionHeader(Table, 2)], 0x03, [0x00, 0xFE, 0x00, 0x00]);
  }

  // lines 192-193
  lemma Eof2TableSectionOddSize1Layout()
    ensures HeaderPrefix(Eof2, [SectionHeader(Code, 1)], [KindId(Table), 0x00, 0x03] + [0x00, 0xFE, 0x00, 0x00, 0x00]) == [0xEF, 0xCA, 0xFE, 0x02, 0x01, 0x00, 0x01, 0x03, 0x00, 0x03, 0x00, 0xFE, 0x00, 0x00, 0x00]
  {
  }

  lemma Eof2TableSectionOddSize1(b: seq<uint8>)
    requires b == [0xEF, 0xCA, 0xFE, 0x02, 0x01, 0x00, 0x01, 0x03, 0x00, 0x03, 0x00, 0xFE, 0x00, 0x00, 0x00]
    ensures ValidateEof(b) == OddTableSectionSize
  {
    Eof2TableSectionOddSize1Layout();
    OddTableSizeRejected([SectionHeader(Code, 1)], 0x00, 0x03, [0x00, 0xFE, 0x00, 0x00, 0x00]);
  }

  // lines 195-196
  lemma Eof2TableSectionOddSize2Layout()
    ensures HeaderPrefix(Eof2, [SectionHeader(Code, 1), SectionHeader(Table, 2)], [KindId(Table), 0x00, 0x03] + [0x00, 0xFE, 0x00, 0x00, 0x00, 0x00, 0x00]) == [0xEF, 0xCA, 0xFE, 0x02, 0x01, 0x00, 0x01, 0x03, 0x00, 0x02, 0x03, 0x00, 0x03, 0x00, 0xFE, 0x00, 0x00, 0x00, 0x00, 0x00]
  {
  }

  lemma Eof2TableSectionOddSize2(b: seq<uint8>)
    requires b == [0xEF, 0xCA, 0xFE, 0x02, 0x01, 0x00, 0x01, 0x03, 0x00, 0x02, 0x03, 0x00, 0x03, 0x00, 0xFE, 0x00, 0x00, 0x00, 0x00, 0x00]
    ensures ValidateEof(b) == OddTableSectionSize
  {
    Eof2TableSectionOddSize2Layout();
    OddTableSizeRejected([SectionHeader(Code, 1), SectionHeader(Table, 2)], 0x00, 0x03, [0x00, 0xFE, 0x00, 0x00, 0x00, 0x00, 0x00]);
  }

  // lines 202-203
  lemma Eof2RjumpTruncated1Layout()
    ensures Container(Eof2, [SectionHeader(Code, 1)], [0x5C] + []) == [0xEF, 0xCA, 0xFE, 0x02, 0x01, 0x00, 0x01, 0x00, 0x5C]
  {
  }

  lemma Eof2RjumpTruncated1(b: seq<uint8>)
    requires b == [0xEF, 0xCA, 0xFE, 0x02, 0x01, 0x00, 0x01, 0x00, 0x5C]
    ensures ValidateEof(b) == MissingImmediateArgument
  {
    Eof2RjumpTruncated1Layout();
    TruncatedJumpRejected(0x5C, []);
  }

  // lines 205-206
  lemma Eof2RjumpTruncated2Layout()
    ensures Container(Eof2, [SectionHeader(Code, 2)], [0x5C] + [0x00]) == [0xEF, 0xCA, 0xFE, 0x02, 0x01, 0x00, 0x02, 0x00, 0x5C, 0x00]
  {
  }

  lemma Eof2RjumpTruncated2(b: seq<uint8>)
    requires b == [0xEF, 0xCA, 0xFE, 0x02, 0x01, 0x00, 0x02, 0x00, 0x5C, 0x00]
    ensures ValidateEof(b) == MissingImmediateArgument
  {
    Eof2RjumpTruncated2Layout();
    TruncatedJumpRejected(0x5C, [0x00]);
  }

  // lines 211-212
  lemma Eof2RjumpiTruncated1Layout()
    ensures Container(Eof2, [SectionHeader(Code, 1)], [0x5D] + []) == [0xEF, 0xCA, 0xFE, 0x02, 0x01, 0x00, 0x01, 0x00, 0x5D]
  {
  }

  lemma Eof2RjumpiTruncated1(b: seq<uint8>)
    requires b == [0xEF, 0xCA, 0xFE, 0x02, 0x01, 0x00, 0x01, 0x00, 0x5D]
    ensures ValidateEof(b) == MissingImmediateArgument
  {
    Eof2RjumpiTruncated1Layout();
    TruncatedJumpRejected(0x5D, []);
  }

  // lines 214-215
  lemma Eof2RjumpiTruncated2Layout()
    ensures Container(Eof2, [SectionHeader(Code, 2)], [0x5D] + [0x00]) == [0xEF, 0xCA, 0xFE, 0x02, 0x01, 0x00, 0x02, 0x00, 0x5D, 0x00]
  {
  }

  lemma Eof2RjumpiTruncated2(b: seq<uint8>)
    requires b == [0xEF, 0xCA, 0xFE, 0x02, 0x01, 0x00, 0x02, 0x00, 0x5D, 0x00]
    ensures ValidateEof(b) == MissingImmediateArgument
  {
    Eof2RjumpiTruncated2Layout();
    TruncatedJumpRejected(0x5D, [0x00]);
  }

  // lines 220-221
  lemma Eof2RjumptableTruncated1Layout()
    ensures Container(Eof2, [SectionHeader(Code, 1)], [0x5E] + []) == [0xEF, 0xCA, 0xFE, 0x02, 0x01, 0x00, 0x01, 0x00, 0x5E]
  {
  }

  lemma Eof2RjumptableTruncated1(b: seq<uint8>)
    requires b == [0xEF, 0xCA, 0xFE, 0x02, 0x01, 0x00, 0x01, 0x00, 0x5E]
    ensures ValidateEof(b) == MissingImmediateArgument
  {
    Eof2RjumptableTruncated1Layout();
    TruncatedJumpRejected(0x5E, []);
  }

  // lines 223-224
  lemma Eof2RjumptableTruncated2Layout()
    ensures Container(Eof2, [SectionHeader(Code, 2)], [0x5E] + [0x00]) == [0xEF, 0xCA, 0xFE, 0x02, 0x01, 0x00, 0x02, 0x00, 0x5E, 0x00]
  {
  }

  lemma Eof2RjumptableTruncated2(b: seq<uint8>)
    requires b == [0xEF, 0xCA, 0xFE, 0x02, 0x01, 0x00, 0x02, 0x00, 0x5E, 0x00]
    ensures ValidateEof(b) == MissingImmediateArgument
  {
    Eof2RjumptableTruncated2Layout();
    TruncatedJumpRejected(0x5E, [0x00]);
  }
}
