/**
 * The opcode legality table the instruction scanner consults: for each
 * opcode byte and container version, whether the opcode is defined and how
 * many immediate bytes follow it.
 */
module Instructions {
  import opened Eof

  /** What the scanner must know about one opcode. */
  datatype OpcodeClass =
    | Undefined
    /** An opcode without immediate bytes. */
    | Plain
    /** PUSH1..PUSH32: `width` immediate bytes follow the opcode. */
    | Push(width: nat)
    /** RJUMP, RJUMPI, RJUMPTABLE (version 2 only): `width` immediate bytes follow. */
    | RelativeJump(width: nat)

  const Push1: uint8 := 0x60
  const Push32: uint8 := 0x7F
  const RJump: uint8 := 0x5C
  const RJumpI: uint8 := 0x5D
  const RJumpTable: uint8 := 0x5E

  /** Size of the relative offset immediate of the relative jumps. */
  const RelativeJumpImmediateSize: nat := 2

  /** The opcodes of the London instruction set that carry no immediate. */
  predicate IsPlainOpcode(op: uint8)
  {
    || op <= 0x0B                  // STOP .. SIGNEXTEND
    || 0x10 <= op <= 0x1D          // LT .. SAR
    || op == 0x20                  // SHA3
    || 0x30 <= op <= 0x48          // ADDRESS .. BASEFEE
    || 0x50 <= op <= 0x5B          // POP .. JUMPDEST
    || 0x80 <= op <= 0xA4          // DUP1 .. LOG4
    || 0xF0 <= op <= 0xF5          // CREATE .. CREATE2
    || op == 0xFA                  // STATICCALL
    || op >= 0xFD                  // REVERT, INVALID, SELFDESTRUCT
  }

  /** The legality table: what `op` means inside a container of version `v`. */
  function Classify(v: Version, op: uint8): (c: OpcodeClass)
    ensures c.Push? <==> Push1 <= op <= Push32
    ensures c.Push? ==> 1 <= c.width <= 32 && op as int == Push1 as int - 1 + c.width
    ensures c.RelativeJump? <==> v == Eof2 && RJump <= op <= RJumpTable
    ensures c.RelativeJump? ==> c.width == RelativeJumpImmediateSize
    ensures c.Plain? <==> IsPlainOpcode(op)
  {
    if Push1 <= op <= Push32 then Push((op - Push1) as nat + 1)
    else if RJump <= op <= RJumpTable then
      if v == Eof2 then RelativeJump(RelativeJumpImmediateSize) else Undefined
    else if IsPlainOpcode(op) then Plain
    else Undefined
  }

  /** Number of immediate bytes a defined opcode is followed by. */
  function ImmediateSize(c: OpcodeClass): (n: nat)
  {
    match c
    case Push(n) => n
    case RelativeJump(n) => n
    case _ => 0
  }
}
