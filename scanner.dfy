/**
 * The instruction scanner: walks the body of the code section opcode by
 * opcode, rejecting undefined opcodes and immediates that run past the end
 * of the section.
 */
module CodeScanner {
  import opened Eof
  import opened Instructions

  /** One decoded instruction: its opcode and the immediate bytes after it. */
  datatype Instruction = Instruction(opcode: uint8, immediate: seq<uint8>)

  /** An instruction the scanner accepts: defined, with its full immediate. */
  predicate WellFormedInstruction(v: Version, i: Instruction)
  {
    var c := Classify(v, i.opcode);
    c != Undefined && |i.immediate| == ImmediateSize(c)
  }

  predicate AllWellFormed(v: Version, instrs: seq<Instruction>)
  {
    forall k | 0 <= k < |instrs| :: WellFormedInstruction(v, instrs[k])
  }

  /** The bytes a sequence of instructions occupies in a code section. */
  function Assemble(instrs: seq<Instruction>): (code: seq<uint8>)
    ensures instrs == [] <==> code == []
  {
    if instrs == [] then []
    else [instrs[0].opcode] + instrs[0].immediate + Assemble(instrs[1..])
  }

  /**
   * The outcome of scanning `code` from the instruction boundary `pc` to the
   * end of the section.
   */
  function ScanFrom(v: Version, code: seq<uint8>, pc: nat): (r: EofValidationError)
    requires pc <= |code|
    decreases |code| - pc
  {
    if pc == |code| then Success
    else
      match Classify(v, code[pc])
      case Undefined => UndefinedInstruction
      case Plain => ScanFrom(v, code, pc + 1)
      case Push(n) =>
        if |code| - (pc + 1) < n then TruncatedPush else ScanFrom(v, code, pc + 1 + n)
      case RelativeJump(n) =>
        if |code| - (pc + 1) < n then MissingImmediateArgument else ScanFrom(v, code, pc + 1 + n)
  }

  /** The scan of a whole code section. */
  function ScanCode(v: Version, code: seq<uint8>): (r: EofValidationError)
    ensures r in {Success, UndefinedInstruction, TruncatedPush, MissingImmediateArgument}
  {
    ScanOutcomes(v, code, 0);
    ScanFrom(v, code, 0)
  }

  /** The scanner only ever reports success or one of its three own errors. */
  lemma {:induction false} ScanOutcomes(v: Version, code: seq<uint8>, pc: nat)
    requires pc <= |code|
    ensures ScanFrom(v, code, pc) in {Success, UndefinedInstruction, TruncatedPush, MissingImmediateArgument}
    decreases |code| - pc
  {
    if pc < |code| {
      var c := Classify(v, code[pc]);
      if c == Plain {
        ScanOutcomes(v, code, pc + 1);
      } else if c.Push? || c.RelativeJump? {
        if |code| - (pc + 1) >= ImmediateSize(c) {
          ScanOutcomes(v, code, pc + 1 + ImmediateSize(c));
        }
      }
    }
  }

  /**
   * The instructions of a code section the scanner accepts, read from `pc`:
   * the scanner's walk, recorded.
   */
  function Disassemble(v: Version, code: seq<uint8>, pc: nat): (instrs: seq<Instruction>)
    requires pc <= |code|
    requires ScanFrom(v, code, pc) == Success
    ensures AllWellFormed(v, instrs)
    ensures Assemble(instrs) == code[pc..]
    decreases |code| - pc
  {
    if pc == |code| then []
    else
      var n := ImmediateSize(Classify(v, code[pc]));
      var i := Instruction(code[pc], code[pc + 1..pc + 1 + n]);
      var rest := Disassemble(v, code, pc + 1 + n);
      assert code[pc..] == [code[pc]] + code[pc + 1..pc + 1 + n] + code[pc + 1 + n..];
      [i] + rest
  }

  /** One step of the scan over a defined opcode whose immediate is present. */
  lemma ScanStep(v: Version, code: seq<uint8>, pc: nat)
    requires pc < |code|
    requires Classify(v, code[pc]) != Undefined
    requires |code| - (pc + 1) >= ImmediateSize(Classify(v, code[pc]))
    ensures ScanFrom(v, code, pc) == ScanFrom(v, code, pc + 1 + ImmediateSize(Classify(v, code[pc])))
  {
  }

  /** Scanning steps over one well-formed instruction unchanged. */
  lemma ScanStepOver(v: Version, code: seq<uint8>, pc: nat, i: Instruction)
    requires WellFormedInstruction(v, i)
    requires pc + 1 + |i.immediate| <= |code| && code[pc] == i.opcode
    ensures ScanFrom(v, code, pc) == ScanFrom(v, code, pc + 1 + |i.immediate|)
  {
    ScanStep(v, code, pc);
  }

  /** Scanning steps over a run of well-formed instructions unchanged. */
  lemma {:induction false} ScanSkipsAssembled(v: Version, code: seq<uint8>, pc: nat, instrs: seq<Instruction>)
    requires AllWellFormed(v, instrs)
    requires pc + |Assemble(instrs)| <= |code|
    requires code[pc..pc + |Assemble(instrs)|] == Assemble(instrs)
    ensures ScanFrom(v, code, pc) == ScanFrom(v, code, pc + |Assemble(instrs)|)
    decreases |instrs|
  {
    if instrs != [] {
      var next := pc + 1 + |instrs[0].immediate|;
      AssembledSplit(v, code, pc, instrs);
      ScanStepOver(v, code, pc, instrs[0]);
      ScanSkipsAssembled(v, code, next, instrs[1..]);
    }
  }

  /** Assembled code at `pc` starts with its first instruction, followed by the rest assembled. */
  lemma AssembledSplit(v: Version, code: seq<uint8>, pc: nat, instrs: seq<Instruction>)
    requires AllWellFormed(v, instrs) && instrs != []
    requires pc + |Assemble(instrs)| <= |code|
    requires code[pc..pc + |Assemble(instrs)|] == Assemble(instrs)
    ensures var n := |instrs[0].immediate|;
      && pc + 1 + n <= |code| && code[pc] == instrs[0].opcode && WellFormedInstruction(v, instrs[0])
      && |Assemble(instrs)| == 1 + n + |Assemble(instrs[1..])|
      && code[pc + 1 + n..pc + 1 + n + |Assemble(instrs[1..])|] == Assemble(instrs[1..])
      && AllWellFormed(v, instrs[1..])
  {
    var i := instrs[0];
    var rest := Assemble(instrs[1..]);
    var whole := Assemble(instrs);
    assert whole == [i.opcode] + i.immediate + rest;
    assert WellFormedInstruction(v, i);
    var n := |i.immediate|;
    assert code[pc] == whole[0] == i.opcode;
    assert code[pc + 1 + n..pc + 1 + n + |rest|] == whole[1 + n..] == rest;
    forall k | 0 <= k < |instrs[1..]| ensures WellFormedInstruction(v, instrs[1..][k]) {
      assert instrs[1..][k] == instrs[k + 1];
    }
  }

  /** Well-formed instructions assemble into a code section the scanner accepts. */
  lemma AssembledAccepted(v: Version, instrs: seq<Instruction>)
    requires AllWellFormed(v, instrs)
    ensures ScanCode(v, Assemble(instrs)) == Success
  {
    ScanSkipsAssembled(v, Assemble(instrs), 0, instrs);
  }

  /**
   * A code section is accepted exactly when it is the assembly of
   * well-formed instructions.
   */
  lemma AcceptedIffAssembled(v: Version, code: seq<uint8>)
    ensures ScanCode(v, code) == Success <==>
            exists instrs :: AllWellFormed(v, instrs) && Assemble(instrs) == code
  {
    if ScanCode(v, code) == Success {
      var instrs := Disassemble(v, code, 0);
      assert code[0..] == code;
      assert AllWellFormed(v, instrs) && Assemble(instrs) == code;
    }
    if exists instrs :: AllWellFormed(v, instrs) && Assemble(instrs) == code {
      var instrs :| AllWellFormed(v, instrs) && Assemble(instrs) == code;
      AssembledAccepted(v, instrs);
    }
  }

  /** After well-formed instructions, an undefined opcode is rejected, whatever follows it. */
  lemma UndefinedAfterPrefix(v: Version, instrs: seq<Instruction>, op: uint8, tail: seq<uint8>)
    requires AllWellFormed(v, instrs)
    requires Classify(v, op) == Undefined
    ensures ScanCode(v, Assemble(instrs) + [op] + tail) == UndefinedInstruction
  {
    var code := Assemble(instrs) + [op] + tail;
    assert code[..|Assemble(instrs)|] == Assemble(instrs);
    ScanSkipsAssembled(v, code, 0, instrs);
    assert code[|Assemble(instrs)|] == op;
  }

  /**
   * After well-formed instructions, a PUSHn followed by fewer than n bytes
   * before the end of the section is a truncated push.
   */
  lemma TruncatedPushAfterPrefix(v: Version, instrs: seq<Instruction>, op: uint8, tail: seq<uint8>)
    requires AllWellFormed(v, instrs)
    requires Classify(v, op).Push? && |tail| < Classify(v, op).width
    ensures ScanCode(v, Assemble(instrs) + [op] + tail) == TruncatedPush
  {
    var code := Assemble(instrs) + [op] + tail;
    assert code[..|Assemble(instrs)|] == Assemble(instrs);
    ScanSkipsAssembled(v, code, 0, instrs);
    assert code[|Assemble(instrs)|] == op;
  }

  /**
   * After well-formed instructions, a relative jump followed by fewer than
   * two bytes before the end of the section misses its immediate argument.
   */
  lemma MissingImmediateAfterPrefix(v: Version, instrs: seq<Instruction>, op: uint8, tail: seq<uint8>)
    requires AllWellFormed(v, instrs)
    requires Classify(v, op).RelativeJump? && |tail| < RelativeJumpImmediateSize
    ensures ScanCode(v, Assemble(instrs) + [op] + tail) == MissingImmediateArgument
  {
    var code := Assemble(instrs) + [op] + tail;
    assert code[..|Assemble(instrs)|] == Assemble(instrs);
    ScanSkipsAssembled(v, code, 0, instrs);
    assert code[|Assemble(instrs)|] == op;
  }

  /**
   * The scanner as a cursor walk over the section: the cursor stays on an
   * instruction boundary, never reads at or past the end, and advances by
   * one opcode and its immediate at each step.
   */
  method ValidateInstructions(v: Version, code: seq<uint8>) returns (r: EofValidationError)
    ensures r == ScanCode(v, code)
  {
    var pc := 0;
    while pc < |code|
      invariant pc <= |code|
      invariant ScanFrom(v, code, pc) == ScanCode(v, code)
      decreases |code| - pc
    {
      var c := Classify(v, code[pc]);
      if c == Undefined {
        return UndefinedInstruction;
      }
      var n := ImmediateSize(c);
      if |code| - (pc + 1) < n {
        if c.Push? {
          return TruncatedPush;
        }
        return MissingImmediateArgument;
      }
      pc := pc + 1 + n;
    }
    return Success;
  }
}
