/** The instruction set: addressing modes, instruction kinds, and the fixed
    table that decodes an opcode byte into an operation descriptor. */
module Opcodes {
  import opened Types

  /** Which index register, if any, is added to the base address. */
  datatype Index = N | X | Y

  /** The addressing modes an operation can declare. */
  datatype Mode =
    | Accumulator
    | Immediate
    | ZeroPage(zeroPageIndex: Index)
    | Absolute(absoluteIndex: Index)
    | Indirect(indirectIndex: Index)
    | Relative
    | Implied

  datatype Instruction =
    ADC | AND | ASL | BCC | BCS | BEQ | BIT | BMI | BNE | BPL | BRK | BVC | BVS | CLC | CLD | CLI | CLV | CMP

  /** An operation descriptor: what to do, how to address the operand, the
      encoded length in bytes, and a base cycle count that nothing consumes. */
  datatype OperationCode = OperationCode(instruction: Instruction, mode: Mode, bytes: Byte, cycles: Byte)

  /** The table has 0xFF slots, for the opcode bytes 0x00 through 0xFE. */
  const TableSize: nat := 0xFF

  /** How many operand bytes follow the opcode byte in `mode`. */
  function OperandBytes(mode: Mode): nat {
    match mode
    case Accumulator => 0
    case Implied => 0
    case Absolute(_) => 2
    case Immediate => 1
    case ZeroPage(_) => 1
    case Indirect(_) => 1
    case Relative => 1
  }

  /** The table slot for opcode byte `b`, as the processor is constructed. */
  function Slot(b: Byte): (r: Option<OperationCode>)
    requires b < TableSize
    ensures r.Some? ==> r.value.bytes == 1 + OperandBytes(r.value.mode)
    ensures r.Some? && r.value.instruction in {BRK, CLC, CLD, CLI, CLV} ==> r.value.mode == Implied
    ensures r.Some? && r.value.instruction in {BCC, BCS, BEQ, BMI, BNE, BPL, BVC, BVS} ==> r.value.mode == Relative
  {
    match b
    case 0x00 => Some(OperationCode(BRK, Implied, 1, 7))
    case 0x06 => Some(OperationCode(ASL, ZeroPage(N), 2, 5))
    case 0x0A => Some(OperationCode(ASL, Accumulator, 1, 2))
    case 0x0E => Some(OperationCode(ASL, Absolute(N), 3, 6))
    case 0x10 => Some(OperationCode(BPL, Relative, 2, 2))
    case 0x16 => Some(OperationCode(ASL, ZeroPage(X), 2, 6))
    case 0x18 => Some(OperationCode(CLC, Implied, 1, 2))
    case 0x1E => Some(OperationCode(ASL, Absolute(X), 3, 7))
    case 0x21 => Some(OperationCode(AND, Indirect(X), 2, 6))
    case 0x24 => Some(OperationCode(BIT, ZeroPage(N), 2, 3))
    case 0x25 => Some(OperationCode(AND, ZeroPage(N), 2, 3))
    case 0x29 => Some(OperationCode(AND, Immediate, 2, 2))
    case 0x2C => Some(OperationCode(BIT, Absolute(Y), 3, 4))
    case 0x2D => Some(OperationCode(AND, Absolute(N), 3, 4))
    case 0x30 => Some(OperationCode(BMI, Relative, 2, 2))
    case 0x31 => Some(OperationCode(AND, Indirect(Y), 2, 5))
    case 0x35 => Some(OperationCode(AND, ZeroPage(X), 2, 4))
    case 0x39 => Some(OperationCode(AND, Absolute(Y), 3, 4))
    case 0x3D => Some(OperationCode(AND, Absolute(X), 3, 4))
    case 0x50 => Some(OperationCode(BVC, Relative, 2, 2))
    case 0x58 => Some(OperationCode(CLI, Implied, 1, 2))
    case 0x61 => Some(OperationCode(ADC, Indirect(X), 2, 6))
    case 0x65 => Some(OperationCode(ADC, ZeroPage(N), 2, 3))
    case 0x69 => Some(OperationCode(ADC, Immediate, 2, 2))
    case 0x6D => Some(OperationCode(ADC, Absolute(N), 3, 4))
    case 0x70 => Some(OperationCode(BVS, Relative, 2, 2))
    case 0x71 => Some(OperationCode(ADC, Indirect(Y), 2, 5))
    case 0x75 => Some(OperationCode(ADC, ZeroPage(X), 2, 4))
    case 0x79 => Some(OperationCode(ADC, Absolute(Y), 3, 4))
    case 0x7D => Some(OperationCode(ADC, Absolute(X), 3, 4))
    case 0x90 => Some(OperationCode(BCC, Relative, 2, 2))
    case 0xB0 => Some(OperationCode(BCS, Relative, 2, 2))
    case 0xB8 => Some(OperationCode(CLV, Implied, 1, 2))
    case 0xC1 => Some(OperationCode(CMP, Indirect(X), 2, 6))
    case 0xC5 => Some(OperationCode(CMP, ZeroPage(N), 2, 3))
    case 0xC9 => Some(OperationCode(CMP, Immediate, 2, 2))
    case 0xCD => Some(OperationCode(CMP, Absolute(N), 3, 4))
    case 0xD0 => Some(OperationCode(BNE, Relative, 2, 2))
    case 0xD1 => Some(OperationCode(CMP, Indirect(Y), 2, 5))
    case 0xD5 => Some(OperationCode(CMP, ZeroPage(X), 2, 4))
    case 0xD8 => Some(OperationCode(CLD, Implied, 1, 2))
    case 0xD9 => Some(OperationCode(CMP, Absolute(Y), 3, 4))
    case 0xDD => Some(OperationCode(CMP, Absolute(X), 3, 4))
    case 0xF0 => Some(OperationCode(BEQ, Relative, 2, 2))
    case _ => None
  }

  /** The populated opcode bytes, in increasing order. */
  const Populated: seq<Byte> := [
    0x00, 0x06, 0x0A, 0x0E, 0x10, 0x16, 0x18, 0x1E, 0x21, 0x24, 0x25,
    0x29, 0x2C, 0x2D, 0x30, 0x31, 0x35, 0x39, 0x3D, 0x50, 0x58, 0x61,
    0x65, 0x69, 0x6D, 0x70, 0x71, 0x75, 0x79, 0x7D, 0x90, 0xB0, 0xB8,
    0xC1, 0xC5, 0xC9, 0xCD, 0xD0, 0xD1, 0xD5, 0xD8, 0xD9, 0xDD, 0xF0]

  /** Exactly 44 distinct slots are populated: those listed in `Populated`. */
  lemma TableShape()
    ensures |Populated| == 44
    ensures forall i :: 0 <= i < |Populated| - 1 ==> Populated[i] < Populated[i + 1]
    ensures forall b: Byte :: b < TableSize ==> (Slot(b).Some? <==> b in Populated)
  {
    forall b: Byte | b < TableSize
      ensures Slot(b).Some? <==> b in Populated
    {
      if Slot(b).Some? {
        PopulatedListed(b);
      }
      if b in Populated {
        var k :| 0 <= k < |Populated| && Populated[k] == b;
        ListedPopulated(k);
      }
    }
  }

  lemma PopulatedListed(b: Byte)
    requires b < TableSize && Slot(b).Some?
    ensures b in Populated
  {
  }

  lemma ListedPopulated(k: nat)
    requires k < |Populated|
    ensures Populated[k] < TableSize && Slot(Populated[k]).Some?
  {
  }

  /** Decoding an opcode byte fetched at `at`: byte 0xFF lies past the end of
      the table, and an empty slot is an unknown opcode. */
  function Lookup(b: Byte, at: Word): (r: Result<OperationCode>)
    ensures b >= TableSize ==> r == Err(OpcodeOutOfTable(b))
    ensures b < TableSize && Slot(b).None? ==> r == Err(UnknownOpcode(b, at))
    ensures b < TableSize && Slot(b).Some? ==> r == Ok(Slot(b).value)
  {
    if b >= TableSize then Err(OpcodeOutOfTable(b))
    else match Slot(b)
      case None => Err(UnknownOpcode(b, at))
      case Some(op) => Ok(op)
  }
}
