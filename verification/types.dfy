/** Machine-width values, the fault taxonomy and the result wrapper shared by
    every component of the emulator. */
module Types {

  /** An 8-bit register or memory cell (`u8`). */
  type Byte = x: int | 0 <= x < 0x100

  /** A 16-bit address or program counter (`u16`). */
  type Word = x: int | 0 <= x < 0x1_0000

  datatype Option<+T> = None | Some(value: T)

  /** Every way a step of the emulator can abort. Each constructor stands for
      a panic of the implementation. */
  datatype Fault =
    /** The opcode table has no entry for `opcode`, fetched at address `at`. */
    | UnknownOpcode(opcode: Byte, at: Word)
    /** Byte 0xFF indexes one past the end of the 255-slot opcode table. */
    | OpcodeOutOfTable(opcode: Byte)
    /** Indirect, Relative or Implied reached the addressing-mode resolver. */
    | UnsupportedMode
    /** Absolute mode shifted a 16-bit value by `amount` >= 16 bits. */
    | ShiftOverflow(amount: nat)
    /** The program counter was incremented past 0xFFFF. */
    | ProgramCounterOverflow
    /** A RAM device was indexed at or beyond the end of its byte array. */
    | RamIndexOutOfBounds(address: Word)
    /** A bus with no device at all was read (`devices[0]` on an empty list). */
    | NoDevice

  /** The outcome of a step: a value, or the fault that aborted it.
      Usable with `:-`. */
  datatype Result<+T> = Ok(value: T) | Err(fault: Fault) {

    predicate IsFailure() {
      Err?
    }

    function PropagateFailure<U>(): Result<U>
      requires Err?
    {
      Err(fault)
    }

    function Extract(): T
      requires Ok?
    {
      value
    }
  }
}
