# EOF container validation, modelled in Dafny

This project models `validate_eof`, evmone's validator for containers in the
EVM Object Format (EOF). A container is a byte string with the following layout:

- the magic `EF CA FE`;
- a version byte (1 or 2);
- a table of 3-byte section headers: a kind id (1 code, 2 data, 3 jump table, version 2 only) and a 2-byte big-endian size;
- a `00` terminator;
- the section bodies.

Validation either returns `success` or names the first rule the container breaks, out of a
closed set of twelve errors. The behaviour is taken from the expectations in
`test/unittests/eof_validation_test.cpp`, which call `validate_eof` at the Shanghai revision.

The model has six modules:

- `Eof` (`eof.dfy`): bytes, versions, section kinds and headers, and the outcome taxonomy.
- `Instructions` (`instructions.dfy`): the opcode legality table. It says which opcodes are
  defined in a container of each version and how many immediate bytes follow each one:
  PUSH1..PUSH32 and, in version 2 only, RJUMP/RJUMPI/RJUMPTABLE.
- `CodeScanner` (`scanner.dfy`): the instruction walk over the code section. It is a
  recursive specification `ScanFrom`/`ScanCode` and a cursor loop `ValidateInstructions`
  proved equal to it. The specification is characterised by an instruction assembler:
  code is accepted exactly when it is the assembly of well-formed instructions.
- `SectionHeaders` (`headers.dfy`): the header-table walk. It is a recursive specification
  `ParseSections`/`ParseHeaders` and a cursor loop `WalkHeaders` proved equal to it. The
  specification is characterised by a header encoder: an encoded well-formed table
  parses back to itself.
- `EofValidation` (`validation.dfy`): `ValidateEof`, its imperative counterpart
  `Validate`, and one general lemma per rule of the format.
- `EofValidationVectors` (`vectors.dfy`): every expectation of the test file as a
  lemma. Each is proved through the general lemma for its rule.

The rules, in the order they are applied:

1. A buffer that does not start with `EF CA FE` is `invalid_prefix`.
2. A missing version byte, or one other than 1 or 2, is `eof_version_unknown`. The test
   at line 34 expects this even for the three-byte buffer `EFCAFE`.
3. The header table is read one header at a time. The checks on each header are:
   - an unknown kind id (including 3 in version 1) is `unknown_section_id`;
   - a second code header is `multiple_code_sections`;
   - a data or table header before the code header is `code_section_missing`;
   - a second data header is `multiple_data_sections`;
   - a header whose size bytes are cut off by the end of the buffer is
     `section_headers_not_terminated`;
   - a zero size is `zero_section_size`;
   - an odd table size is `odd_table_section_size`.

   Running off the end before the terminator is `section_headers_not_terminated`. A
   terminator with no code header before it is `code_section_missing`.
4. The code body is scanned: the declared number of bytes after the terminator, or fewer
   where the buffer ends. The scan's outcomes are:
   - an undefined opcode is `undefined_instruction`;
   - a PUSH whose immediate runs past the body is `truncated_push`;
   - a relative jump whose 2-byte immediate runs past the body is
     `missing_immediate_argument`.

   Otherwise the container is `success`.

## Model

| member | source | states |
|---|---|---|
| EofValidation.Validate | test/unittests/eof_validation_test.cpp:13-16 | the imperative validator (prefix and version checks, header loop, instruction loop) returns exactly `ValidateEof(b)` for every buffer |
| EofValidation.InvalidPrefixIff | test/unittests/eof_validation_test.cpp:19-32 | the outcome is `invalid_prefix` if and only if the buffer does not begin with the three magic bytes |
| EofValidation.VersionUnknownIff | test/unittests/eof_validation_test.cpp:44-48 | behind the magic, the outcome is `eof_version_unknown` if and only if the version byte is absent or is neither 1 nor 2 |
| EofValidation.HeadersNotTerminated | test/unittests/eof_validation_test.cpp:36-39 | after valid headers, a buffer that ends before another header (or in the middle of one whose id passes the kind checks) is `section_headers_not_terminated` |
| EofValidation.CodeSectionMissingFirst | test/unittests/eof_validation_test.cpp:61-66 | a header table whose first id is the terminator, a data id or a table id is `code_section_missing`, whatever follows |
| EofValidation.SecondCodeSection | test/unittests/eof_validation_test.cpp:80-86 | after a complete valid table, another code header is `multiple_code_sections`, whatever follows |
| EofValidation.SecondDataSection | test/unittests/eof_validation_test.cpp:88-92 | after a complete valid table holding a data header, another data header is `multiple_data_sections` |
| EofValidation.ZeroSizeRejected | test/unittests/eof_validation_test.cpp:68-78 | any header accepted by the kind checks that declares size 0 is `zero_section_size`; this covers the code and data cases and the version 2 table case of lines 181-188 |
| EofValidation.OddTableSizeRejected | test/unittests/eof_validation_test.cpp:190-197 | in version 2, a table header with an odd size after a valid table is `odd_table_section_size` |
| EofValidation.UnknownSectionRejected | test/unittests/eof_validation_test.cpp:94-101 | an id above 3, or the table id 3 in a version 1 container, is `unknown_section_id` wherever it appears in the header table |
| EofValidation.ValidateWellFormed | test/unittests/eof_validation_test.cpp:50-59 | for a container with a well-formed encoded header table, the outcome is exactly the scan of the first `min(code size, bytes after the terminator)` body bytes |
| EofValidation.WellFormedAccepted | test/unittests/eof_validation_test.cpp:158-179 | a well-formed header table whose code section holds the assembly of well-formed instructions validates to `success`, whatever data and table bodies follow |
| EofValidation.AcceptedLayout | test/unittests/eof_validation_test.cpp:50-59 | conversely, every accepted buffer has the magic, a known version, a header table that parses and re-encodes to the buffer's own bytes, and a code body that scans cleanly |
| EofValidation.CompletePushAccepted | test/unittests/eof_validation_test.cpp:143-156 | a code section holding one PUSHn followed by all n immediate bytes is `success` in either version |
| EofValidation.TruncatedPushRejected | test/unittests/eof_validation_test.cpp:121-141 | a code section holding one PUSHn followed by fewer than n bytes is `truncated_push` |
| EofValidation.TruncatedJumpRejected | test/unittests/eof_validation_test.cpp:198-225 | in version 2, a code section holding RJUMP, RJUMPI or RJUMPTABLE followed by fewer than 2 bytes is `missing_immediate_argument` |
| EofValidation.UndefinedOpcodeRejected | test/unittests/eof_validation_test.cpp:103-117 | a code section starting with an opcode undefined in the container's version is `undefined_instruction`, whatever follows it |
| EofValidation.CodeBodyOfContainer | test/unittests/eof_validation_test.cpp:55-58 | in a laid-out container the scanned code body starts right after the terminator and is the first `min(code size, bytes present)` bytes there, so data and table bodies after it are never scanned |
| SectionHeaders.WalkHeaders | test/unittests/eof_validation_test.cpp:61-101 | the header cursor loop returns exactly `ParseHeaders(v, b)` |
| SectionHeaders.ParseHeaders | test/unittests/eof_validation_test.cpp:61-101 | a header error is one of the seven header rules; an accepted table is well-formed, ends inside the buffer, and is the encoding of its headers followed by the terminator |
| SectionHeaders.ParseEncoded | test/unittests/eof_validation_test.cpp:158-179 | round trip: the encoding of any well-formed table (code first, at most one data, even-sized tables in version 2) followed by a terminator parses back to exactly that table |
| SectionHeaders.ParseSkipsEncoded | test/unittests/eof_validation_test.cpp:80-92 | parsing over the encoding of valid headers consumes them one by one and resumes with them appended, which is how errors are located after earlier valid headers |
| SectionHeaders.ParsedShape | test/unittests/eof_validation_test.cpp:61-101 | whenever a walk started after headers `hs` succeeds, its result extends `hs` and the bytes read are the encoding of the new headers plus the terminator |
| SectionHeaders.HeaderOutcomes | test/unittests/eof_validation_test.cpp:61-101 | the header walk fails only with header errors, never with a prefix, version or instruction error |
| SectionHeaders.HeaderAppended | test/unittests/eof_validation_test.cpp:80-92 | a header accepted by the kind and size checks keeps the table well-formed: the code header stays first and unique and data stays unique |
| SectionHeaders.CheckKind | test/unittests/eof_validation_test.cpp:61-101 | an accepted id is the id of the returned kind, and that kind is Code exactly when no header precedes it; a rejection is one of unknown id, multiple code, code missing, multiple data |
| SectionHeaders.CheckSize | test/unittests/eof_validation_test.cpp:181-197 | a size is accepted if and only if it is non-zero and, for a table, even; the accepted value is the big-endian size; a rejection is zero or odd size |
| SectionHeaders.SectionKindOf | test/unittests/eof_validation_test.cpp:94-101 | the kind an id denotes has that id, and a table kind is only recognised in version 2 |
| SectionHeaders.SizeRoundTrip | test/unittests/eof_validation_test.cpp:68-78 | splitting a size up to 0xFFFF into big-endian bytes and reading them back gives the size |
| SectionHeaders.SizeBytesRoundTrip | test/unittests/eof_validation_test.cpp:181-197 | reading two size bytes and splitting the size again gives the same two bytes |
| CodeScanner.ValidateInstructions | test/unittests/eof_validation_test.cpp:103-156 | the instruction cursor loop returns exactly `ScanCode(v, code)` |
| CodeScanner.ScanCode | test/unittests/eof_validation_test.cpp:103-156 | the scan ends in `success` or in one of the three instruction errors |
| CodeScanner.AcceptedIffAssembled | test/unittests/eof_validation_test.cpp:103-156 | code scans as `success` if and only if it is the assembly of some sequence of well-formed instructions (defined opcode, immediate of exactly its width) |
| CodeScanner.AssembledAccepted | test/unittests/eof_validation_test.cpp:143-156 | the assembly of well-formed instructions always scans as `success` |
| CodeScanner.Disassemble | test/unittests/eof_validation_test.cpp:143-156 | accepted code disassembles into well-formed instructions that assemble back to the same bytes |
| CodeScanner.ScanSkipsAssembled | test/unittests/eof_validation_test.cpp:103-118 | scanning over the assembly of well-formed instructions skips it exactly, so an error is decided by the first bad instruction |
| CodeScanner.UndefinedAfterPrefix | test/unittests/eof_validation_test.cpp:103-117 | well-formed instructions followed by an undefined opcode scan as `undefined_instruction` |
| CodeScanner.TruncatedPushAfterPrefix | test/unittests/eof_validation_test.cpp:121-141 | well-formed instructions followed by a PUSHn with fewer than n bytes left scan as `truncated_push` |
| CodeScanner.MissingImmediateAfterPrefix | test/unittests/eof_validation_test.cpp:198-225 | well-formed instructions followed by a relative jump with fewer than 2 bytes left scan as `missing_immediate_argument` |
| CodeScanner.ScanOutcomes | test/unittests/eof_validation_test.cpp:103-156 | from any position the scan ends in `success` or in an instruction error |
| Instructions.Classify | test/unittests/eof_validation_test.cpp:103-156 | PUSH1..PUSH32 (0x60..0x7F) are push opcodes with widths 1..32; 0x5C..0x5E are relative jumps with a 2-byte immediate exactly in version 2; an opcode is a plain one (defined, no immediate) exactly when it is in the London set outside those ranges, so `FE` and every other London opcode is defined |
| Eof.VersionOf | test/unittests/eof_validation_test.cpp:44-48 | a version byte is known if and only if it is 1 or 2, and it is the byte of the version it selects |
| EofValidationVectors.ValidateEmptyCode | test/unittests/eof_validation_test.cpp:21 | the empty buffer validates to `invalid_prefix` |
| EofValidationVectors.ValidateEofPrefix1 | test/unittests/eof_validation_test.cpp:26 | `00` validates to `invalid_prefix` |
| EofValidationVectors.ValidateEofPrefix2 | test/unittests/eof_validation_test.cpp:27 | `FE` validates to `invalid_prefix` |
| EofValidationVectors.ValidateEofPrefix3 | test/unittests/eof_validation_test.cpp:28 | `EF` validates to `invalid_prefix` |
| EofValidationVectors.ValidateEofPrefix4 | test/unittests/eof_validation_test.cpp:30 | `EFCA` validates to `invalid_prefix` |
| EofValidationVectors.ValidateEofPrefix5 | test/unittests/eof_validation_test.cpp:31 | `EFCBFE01` validates to `invalid_prefix` |
| EofValidationVectors.ValidateEofPrefix6 | test/unittests/eof_validation_test.cpp:32 | `EFCAFF01` validates to `invalid_prefix` |
| EofValidationVectors.ValidateEofPrefix7 | test/unittests/eof_validation_test.cpp:34 | `EFCAFE` validates to `eof_version_unknown` |
| EofValidationVectors.ValidateEofPrefix8 | test/unittests/eof_validation_test.cpp:36-37 | `EFCAFE01` validates to `section_headers_not_terminated` |
| EofValidationVectors.ValidateEofPrefix9 | test/unittests/eof_validation_test.cpp:38-39 | `EFCAFE02` validates to `section_headers_not_terminated` |
| EofValidationVectors.ValidateEofVersion1 | test/unittests/eof_validation_test.cpp:46 | `EFCAFE03` validates to `eof_version_unknown` |
| EofValidationVectors.ValidateEofVersion2 | test/unittests/eof_validation_test.cpp:47 | `EFCAFEFF` validates to `eof_version_unknown` |
| EofValidationVectors.MinimalValidEof1Code | test/unittests/eof_validation_test.cpp:52 | `EFCAFE01 010001 00 FE` validates to `success` |
| EofValidationVectors.MinimalValidEof1CodeWithData | test/unittests/eof_validation_test.cpp:57-58 | `EFCAFE01 010001 020001 00 FE DA` validates to `success` |
| EofValidationVectors.Eof1CodeSectionMissing1 | test/unittests/eof_validation_test.cpp:63 | `EFCAFE01 00` validates to `code_section_missing` |
| EofValidationVectors.Eof1CodeSectionMissing2 | test/unittests/eof_validation_test.cpp:64-65 | `EFCAFE01 020001 DA` validates to `code_section_missing` |
| EofValidationVectors.Eof1CodeSection0Size | test/unittests/eof_validation_test.cpp:70-71 | `EFCAFE01 010000 020001 00 DA` validates to `zero_section_size` |
| EofValidationVectors.Eof1DataSection0Size | test/unittests/eof_validation_test.cpp:76-77 | `EFCAFE01 010001 020000 00 FE` validates to `zero_section_size` |
| EofValidationVectors.Eof1MultipleCodeSections1 | test/unittests/eof_validation_test.cpp:82-83 | `EFCAFE01 010001 010001 00 FE FE` validates to `multiple_code_sections` |
| EofValidationVectors.Eof1MultipleCodeSections2 | test/unittests/eof_validation_test.cpp:84-85 | `EFCAFE01 010001 010001 020001 00 FE FE DA` validates to `multiple_code_sections` |
| EofValidationVectors.Eof1MultipleDataSections | test/unittests/eof_validation_test.cpp:90-91 | `EFCAFE01 010001 020001 020001 00 FE DA DA` validates to `multiple_data_sections` |
| EofValidationVectors.Eof1TableSection1 | test/unittests/eof_validation_test.cpp:96-97 | `EFCAFE01 010001 030002 00 FE 0001` validates to `unknown_section_id` |
| EofValidationVectors.Eof1TableSection2 | test/unittests/eof_validation_test.cpp:99-100 | `EFCAFE01 010001 020001 030002 00 FE DA 0001` validates to `unknown_section_id` |
| EofValidationVectors.Eof1UndefinedOpcodes1 | test/unittests/eof_validation_test.cpp:107-108 | `EFCAFE01 010001 00 0C` validates to `undefined_instruction` |
| EofValidationVectors.Eof1UndefinedOpcodes2 | test/unittests/eof_validation_test.cpp:109-110 | `EFCAFE01 010001 00 21` validates to `undefined_instruction` |
| EofValidationVectors.Eof1UndefinedOpcodes3 | test/unittests/eof_validation_test.cpp:111-112 | `EFCAFE01 010001 00 B0` validates to `undefined_instruction` |
| EofValidationVectors.Eof1UndefinedOpcodes4 | test/unittests/eof_validation_test.cpp:113-114 | `EFCAFE01 010001 00 C0` validates to `undefined_instruction` |
| EofValidationVectors.Eof1UndefinedOpcodes5 | test/unittests/eof_validation_test.cpp:115-116 | `EFCAFE01 010001 00 EF` validates to `undefined_instruction` |
| EofValidationVectors.Eof1UndefinedOpcodes6 | test/unittests/eof_validation_test.cpp:118 | `EFCAFE01 010001 00 FE` validates to `success` |
| EofValidationVectors.Eof1TruncatedPush1 | test/unittests/eof_validation_test.cpp:125 | `EFCAFE01 010001 00 60` validates to `truncated_push` |
| EofValidationVectors.Eof1TruncatedPush2 | test/unittests/eof_validation_test.cpp:127 | `EFCAFE01 010001 00 61` validates to `truncated_push` |
| EofValidationVectors.Eof1TruncatedPush3 | test/unittests/eof_validation_test.cpp:128-129 | `EFCAFE01 010002 00 6100` validates to `truncated_push` |
| EofValidationVectors.Eof1TruncatedPush4 | test/unittests/eof_validation_test.cpp:131 | `EFCAFE01 010001 00 62` validates to `truncated_push` |
| EofValidationVectors.Eof1TruncatedPush5 | test/unittests/eof_validation_test.cpp:132-133 | `EFCAFE01 010002 00 6200` validates to `truncated_push` |
| EofValidationVectors.Eof1TruncatedPush6 | test/unittests/eof_validation_test.cpp:134-135 | `EFCAFE01 010003 00 620000` validates to `truncated_push` |
| EofValidationVectors.Eof1TruncatedPush7 | test/unittests/eof_validation_test.cpp:137-140 | `EFCAFE01 010020 00 7F00000000000000000000000000000000000000000000000000000000000000` validates to `truncated_push` |
| EofValidationVectors.Eof1CompletePush1 | test/unittests/eof_validation_test.cpp:147 | `EFCAFE01 010002 00 6000` validates to `success` |
| EofValidationVectors.Eof1CompletePush2 | test/unittests/eof_validation_test.cpp:148 | `EFCAFE01 010003 00 610000` validates to `success` |
| EofValidationVectors.Eof1CompletePush3 | test/unittests/eof_validation_test.cpp:149 | `EFCAFE01 010004 00 62000000` validates to `success` |
| EofValidationVectors.Eof1CompletePush4 | test/unittests/eof_validation_test.cpp:150-151 | `EFCAFE01 010005 00 6300000000` validates to `success` |
| EofValidationVectors.Eof1CompletePush5 | test/unittests/eof_validation_test.cpp:152-155 | `EFCAFE01 010021 00 7F0000000000000000000000000000000000000000000000000000000000000000` validates to `success` |
| EofValidationVectors.MinimalValidEof21 | test/unittests/eof_validation_test.cpp:160 | `EFCAFE02 010001 00 FE` validates to `success` |
| EofValidationVectors.MinimalValidEof22 | test/unittests/eof_validation_test.cpp:162-163 | `EFCAFE02 010001 020001 00 FE DA` validates to `success` |
| EofValidationVectors.MinimalValidEof23 | test/unittests/eof_validation_test.cpp:165-166 | `EFCAFE02 010001 030002 00 FE 0001` validates to `success` |
| EofValidationVectors.MinimalValidEof24 | test/unittests/eof_validation_test.cpp:168-169 | `EFCAFE02 010001 020001 030002 00 FE DA 0001` validates to `success` |
| EofValidationVectors.MultipleTableSections1 | test/unittests/eof_validation_test.cpp:174-175 | `EFCAFE02 010001 030002 030004 00 FE 0001 00010002` validates to `success` |
| EofValidationVectors.MultipleTableSections2 | test/unittests/eof_validation_test.cpp:177-178 | `EFCAFE02 010001 020001 030002 030004 00 FE DA 0001 00010002` validates to `success` |
| EofValidationVectors.Eof2TableSection0Size1 | test/unittests/eof_validation_test.cpp:183-184 | `EFCAFE02 010001 030000 00 FE` validates to `zero_section_size` |
| EofValidationVectors.Eof2TableSection0Size2 | test/unittests/eof_validation_test.cpp:186-187 | `EFCAFE02 010001 030002 030000 00 FE 0000` validates to `zero_section_size` |
| EofValidationVectors.Eof2TableSectionOddSize1 | test/unittests/eof_validation_test.cpp:192-193 | `EFCAFE02 010001 030003 00 FE 000000` validates to `odd_table_section_size` |
| EofValidationVectors.Eof2TableSectionOddSize2 | test/unittests/eof_validation_test.cpp:195-196 | `EFCAFE02 010001 030002 030003 00 FE 0000 000000` validates to `odd_table_section_size` |
| EofValidationVectors.Eof2RjumpTruncated1 | test/unittests/eof_validation_test.cpp:202-203 | `EFCAFE02 010001 00 5C` validates to `missing_immediate_argument` |
| EofValidationVectors.Eof2RjumpTruncated2 | test/unittests/eof_validation_test.cpp:205-206 | `EFCAFE02 010002 00 5C00` validates to `missing_immediate_argument` |
| EofValidationVectors.Eof2RjumpiTruncated1 | test/unittests/eof_validation_test.cpp:211-212 | `EFCAFE02 010001 00 5D` validates to `missing_immediate_argument` |
| EofValidationVectors.Eof2RjumpiTruncated2 | test/unittests/eof_validation_test.cpp:214-215 | `EFCAFE02 010002 00 5D00` validates to `missing_immediate_argument` |
| EofValidationVectors.Eof2RjumptableTruncated1 | test/unittests/eof_validation_test.cpp:220-221 | `EFCAFE02 010001 00 5E` validates to `missing_immediate_argument` |
| EofValidationVectors.Eof2RjumptableTruncated2 | test/unittests/eof_validation_test.cpp:223-224 | `EFCAFE02 010002 00 5E00` validates to `missing_immediate_argument` |

## Left out

- The revision parameter of `validate_eof`: every expectation uses the default Shanghai
  revision, so the model has no revision argument and no pre-Shanghai behaviour.
- The full per-revision instruction table: the defined opcodes are the London set. The
  tests do not exercise 0x5C..0x5E in version 1, which the model rejects as undefined;
  nor 0x5F, which the model also rejects as undefined.
- Jump-target validation (jumps outside the code section, into push data or jump
  immediates, and the rjumptable index and destinations) is only named as future test
  cases at lines 227-232, so it is not modelled. RJUMPTABLE is given the same fixed
  2-byte immediate as RJUMP and RJUMPI, which is all lines 218-225 check.
- Body sizes are not cross-checked against the buffer length. The code body is the
  declared size or whatever bytes remain, whichever is fewer. Data and table bodies are
  not inspected. No expectation rejects a container for bodies that are too short or too long.
- Two header orderings are chosen where the tests are silent:
  - a data or table header before the code header is `code_section_missing`, reported at
    that header;
  - a header whose two size bytes are cut off by the end of the buffer is
    `section_headers_not_terminated`.
- `from_hex`, the gtest framework and the (data, size) calling convention are not
  modelled: buffers are sequences of bytes.
- The header encoder and the instruction assembler are specification devices. The model
  uses them for its round-trip lemmas; nothing in the validator calls them.
