/** Properties of whole steps: how a decoded tick splits into execution and
    the final advance, how far it moves the program counter, and which
    faults it raises. */
module Steps {
  import opened Types
  import opened Status
  import opened Opcodes
  import opened Cpu6502
  import Bus

  /** A tick at `regs` decodes the table entry `op`. */
  ghost predicate Decodes(regs: Registers, bus: Bus.Bus, op: OperationCode) {
    Bus.Read(bus, regs.pc).Ok? && Lookup(Bus.Read(bus, regs.pc).value, regs.pc) == Ok(op)
  }

  /** Once decoded, a tick is the execution of the entry followed by one
      more advance of the program counter, on the bus the execution left. */
  lemma TickIsExecuteThenNext(regs: Registers, bus: Bus.Bus, op: OperationCode)
    requires Decodes(regs, bus, op)
    ensures Execute(regs, bus, op).Err? ==> Tick(regs, bus) == Err(Execute(regs, bus, op).fault)
    ensures Execute(regs, bus, op).Ok? ==>
              var (executed, written) := Execute(regs, bus, op).value;
              && (Tick(regs, bus).Ok? <==> Next(executed, written).Ok?)
              && (Tick(regs, bus).Ok? ==> Tick(regs, bus).value == (Next(executed, written).value.0, written))
              && (Tick(regs, bus).Err? ==> Tick(regs, bus) == Err(Next(executed, written).fault))
  {
  }

  /** How far a successful tick moves the program counter. Instructions that
      resolve an operand, the clears and BRK move it by the entry's length.
      BIT and CMP move it by one, so their operand bytes are decoded as
      opcodes on the next tick. A branch not taken moves it by one as well;
      a branch taken lands one past the target, which is 1 to 256 bytes on
      from the branch, modulo 2^16. */
  lemma TickProgramCounter(regs: Registers, bus: Bus.Bus, op: OperationCode)
    requires Decodes(regs, bus, op) && Tick(regs, bus).Ok?
    ensures UsesOperand(op.instruction) || ClearedFlag(op.instruction).Some? || op.instruction == BRK ==>
              Tick(regs, bus).value.0.pc == regs.pc + op.bytes
    ensures op.instruction == BIT || op.instruction == CMP ==> Tick(regs, bus).value.0.pc == regs.pc + 1
    ensures BranchCondition(op.instruction).Some? ==>
              var (f, value) := BranchCondition(op.instruction).value;
              && (GetFlag(regs.status, f) != value ==> Tick(regs, bus).value.0.pc == regs.pc + 1)
              && (GetFlag(regs.status, f) == value ==>
                    && regs.pc < 0xFFFF && Bus.Read(bus, regs.pc + 1).Ok?
                    && Tick(regs, bus).value.0.pc == (regs.pc + 1 + Bus.Read(bus, regs.pc + 1).value) % 0x1_0000 + 1)
  {
    DecodedEntry(regs, bus, op);
    TickIsExecuteThenNext(regs, bus, op);
    var (executed, written) := Execute(regs, bus, op).value;
    if UsesOperand(op.instruction) {
      assert executed.pc == regs.pc + OperandBytes(op.mode);
    } else if ClearedFlag(op.instruction).Some? || op.instruction == BRK {
      assert op.mode == Implied;
      assert executed.pc == regs.pc;
    } else if BranchCondition(op.instruction).Some? {
      var (f, value) := BranchCondition(op.instruction).value;
      if GetFlag(regs.status, f) == value {
        assert executed == Branch(regs, bus).value;
        BranchTarget(regs, bus);
      } else {
        assert executed == regs;
      }
    }
  }

  /** Where a branch lands: the offset byte after the opcode, added to the
      address of that offset byte. */
  lemma BranchTarget(regs: Registers, bus: Bus.Bus)
    requires Branch(regs, bus).Ok?
    ensures regs.pc < 0xFFFF && Bus.Read(bus, regs.pc + 1).Ok?
    ensures Branch(regs, bus).value.pc == (regs.pc + 1 + Bus.Read(bus, regs.pc + 1).value) % 0x1_0000
  {
  }

  /** A decoded entry is a populated table slot, with its length and mode. */
  lemma DecodedEntry(regs: Registers, bus: Bus.Bus, op: OperationCode)
    requires Decodes(regs, bus, op)
    ensures op.bytes == 1 + OperandBytes(op.mode)
    ensures op.instruction in {BRK, CLC, CLD, CLI, CLV} ==> op.mode == Implied
  {
    var b := Bus.Read(bus, regs.pc).value;
    assert b < TableSize && Slot(b) == Some(op);
  }

  /** The modes the fetch leaves unimplemented abort every instruction that
      resolves an operand, so ADC and AND in indirect mode never run. */
  lemma UnsupportedModeFaults(regs: Registers, bus: Bus.Bus, op: OperationCode)
    requires Decodes(regs, bus, op) && UsesOperand(op.instruction)
    requires op.mode.Indirect? || op.mode == Relative || op.mode == Implied
    ensures Tick(regs, bus) == Err(UnsupportedMode)
  {
    TickIsExecuteThenNext(regs, bus, op);
  }
}
