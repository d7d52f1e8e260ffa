/** The processor: its register file and the fetch-decode-execute step. Each
    operation takes the registers and the bus by value and returns the new
    ones, or the fault that aborts the step. */
module Cpu6502 {
  import opened Types
  import opened Bits
  import opened ByteOps
  import opened Status
  import opened Opcodes
  import opened Alu
  import Memory
  import Bus

  /** The register file. `sp` is carried but no instruction uses it. */
  datatype Registers = Registers(pc: Word, sp: Byte, acc: Byte, x: Byte, y: Byte, status: Byte)

  /** The register file of a freshly constructed processor. */
  function Reset(): (r: Registers)
    ensures r.pc == 0 && r.sp == 0 && r.acc == 0 && r.x == 0 && r.y == 0 && r.status == 0
    ensures forall f :: !GetFlag(r.status, f)
  {
    Registers(0, 0, 0, 0, 0, 0)
  }

  /** Where a resolved operand lives: the accumulator, or a bus address. */
  datatype Address = A | M(address: Word)

  /** A resolved operand: where it lives, the byte currently there, and the
      extra cycles the addressing cost (always zero). */
  datatype Operand = Operand(location: Address, value: Byte, additionalCycles: Byte)

  /** `next`: advance the program counter by one and read the byte it now
      points at. Incrementing past 0xFFFF aborts. */
  function Next(regs: Registers, bus: Bus.Bus): (r: Result<(Registers, Byte)>)
    ensures regs.pc == 0xFFFF ==> r == Err(ProgramCounterOverflow)
    ensures r.Ok? <==> regs.pc < 0xFFFF && Bus.Read(bus, regs.pc + 1).Ok?
    ensures r.Ok? ==> r.value.0 == regs.(pc := regs.pc + 1)
    ensures r.Ok? ==> Bus.Read(bus, regs.pc + 1) == Ok(r.value.1)
    ensures regs.pc < 0xFFFF && Bus.Read(bus, regs.pc + 1).Err? ==> r == Err(Bus.Read(bus, regs.pc + 1).fault)
  {
    if regs.pc == 0xFFFF then Err(ProgramCounterOverflow)
    else
      var advanced := regs.(pc := regs.pc + 1);
      var b :- Bus.Read(bus, advanced.pc);
      Ok((advanced, b))
  }

  /** The index register a mode adds to its base address, or zero. */
  function IndexValue(index: Index, regs: Registers): Byte {
    match index
    case N => 0
    case X => regs.x
    case Y => regs.y
  }

  /** The index depends on the register file only through the register the
      sub-mode names, and the plain sub-mode adds nothing. */
  lemma IndexReadsNamedRegister(index: Index, regs: Registers, other: Registers)
    requires index == X ==> other.x == regs.x
    requires index == Y ==> other.y == regs.y
    ensures IndexValue(index, other) == IndexValue(index, regs)
    ensures index == N ==> IndexValue(index, regs) == 0
    ensures index == X ==> IndexValue(index, regs) == regs.x
    ensures index == Y ==> IndexValue(index, regs) == regs.y
  {
  }

  /** The byte `k` positions after the program counter, when it can be read. */
  ghost function OperandByte(regs: Registers, bus: Bus.Bus, k: nat): Option<Byte> {
    if regs.pc + k < 0x1_0000 && Bus.Read(bus, regs.pc + k).Ok? then Some(Bus.Read(bus, regs.pc + k).value)
    else None
  }

  /** Immediate mode: consumes one byte and, rather than using it as the
      operand, reads the operand from the address that byte names. */
  function FetchImmediate(regs: Registers, bus: Bus.Bus): (r: Result<(Registers, Operand)>)
    ensures r.Ok? <==> regs.pc < 0xFFFF && OperandByte(regs, bus, 1).Some?
    ensures r.Ok? ==> && OperandByte(regs, bus, 1).Some?
                      && r.value.0 == regs.(pc := regs.pc + 1)
                      && r.value.1.location == M(OperandByte(regs, bus, 1).value)
                      && Bus.Read(bus, r.value.1.location.address) == Ok(r.value.1.value)
    ensures regs.pc == 0xFFFF ==> r == Err(ProgramCounterOverflow)
    ensures regs.pc < 0xFFFF && Bus.Read(bus, regs.pc + 1).Err? ==> r == Err(Bus.Read(bus, regs.pc + 1).fault)
  {
    var (r1, b) :- Next(regs, bus);
    Bus.ReadBelowSizeSucceeds(bus, b);
    Ok((r1, Operand(M(b), Bus.Read(bus, b).value, 0)))
  }

  /** Zero-page mode: consumes one byte and adds the index register to it in
      sixteen bits, so the address can leave page zero. */
  function FetchZeroPage(regs: Registers, index: Index, bus: Bus.Bus): (r: Result<(Registers, Operand)>)
    ensures r.Ok? <==> regs.pc < 0xFFFF && OperandByte(regs, bus, 1).Some?
    ensures r.Ok? ==> && OperandByte(regs, bus, 1).Some?
                      && r.value.0 == regs.(pc := regs.pc + 1)
                      && r.value.1.location == M(OperandByte(regs, bus, 1).value + IndexValue(index, regs))
                      && Bus.Read(bus, r.value.1.location.address) == Ok(r.value.1.value)
    ensures regs.pc == 0xFFFF ==> r == Err(ProgramCounterOverflow)
    ensures regs.pc < 0xFFFF && Bus.Read(bus, regs.pc + 1).Err? ==> r == Err(Bus.Read(bus, regs.pc + 1).fault)
  {
    var (r1, b) :- Next(regs, bus);
    var address := b + IndexValue(index, regs);
    Bus.ReadBelowSizeSucceeds(bus, address);
    Ok((r1, Operand(M(address), Bus.Read(bus, address).value, 0)))
  }

  /** The shift amount absolute mode computes from its second operand byte. */
  function ShiftAmount(b2: Byte, index: Index, regs: Registers): nat {
    8 + b2 + IndexValue(index, regs)
  }

  /** The address absolute mode resolves from the operand bytes `b1`, `b2`
      after the opcode, `b1 << (8 + b2 + index)` in sixteen bits, when both
      bytes can be read and the shift stays below sixteen. */
  ghost function AbsoluteAddress(regs: Registers, index: Index, bus: Bus.Bus): Option<Word> {
    if OperandByte(regs, bus, 1).Some? && OperandByte(regs, bus, 2).Some?
       && ShiftAmount(OperandByte(regs, bus, 2).value, index, regs) < 16
    then
      Pow2Values();
      Some(ShiftLeft(OperandByte(regs, bus, 1).value, ShiftAmount(OperandByte(regs, bus, 2).value, index, regs), 16))
    else None
  }

  /** Absolute mode: consumes two bytes `b1`, `b2` and computes
      `b1 << (8 + b2 + index)` in sixteen bits, because `+` binds tighter
      than `<<`; a shift of 16 or more aborts. */
  function FetchAbsolute(regs: Registers, index: Index, bus: Bus.Bus): (r: Result<(Registers, Operand)>)
    ensures r.Ok? ==> && AbsoluteAddress(regs, index, bus).Some?
                      && r.value.0 == regs.(pc := regs.pc + 2)
                      && r.value.1.location == M(AbsoluteAddress(regs, index, bus).value)
                      && Bus.Read(bus, r.value.1.location.address) == Ok(r.value.1.value)
    ensures OperandByte(regs, bus, 1).Some? && OperandByte(regs, bus, 2).Some? &&
            ShiftAmount(OperandByte(regs, bus, 2).value, index, regs) >= 16 ==>
              r == Err(ShiftOverflow(ShiftAmount(OperandByte(regs, bus, 2).value, index, regs)))
    ensures AbsoluteAddress(regs, index, bus).Some? ==>
              && (r.Ok? <==> Bus.Read(bus, AbsoluteAddress(regs, index, bus).value).Ok?)
              && (r.Err? ==> r == Err(Bus.Read(bus, AbsoluteAddress(regs, index, bus).value).fault))
    ensures regs.pc + 2 > 0xFFFF || OperandByte(regs, bus, 1).None? || OperandByte(regs, bus, 2).None? ==> r.Err?
    ensures regs.pc == 0xFFFF ==> r == Err(ProgramCounterOverflow)
    ensures regs.pc < 0xFFFF && Bus.Read(bus, regs.pc + 1).Err? ==> r == Err(Bus.Read(bus, regs.pc + 1).fault)
    ensures regs.pc == 0xFFFE && Bus.Read(bus, regs.pc + 1).Ok? ==> r == Err(ProgramCounterOverflow)
    ensures regs.pc < 0xFFFE && Bus.Read(bus, regs.pc + 1).Ok? && Bus.Read(bus, regs.pc + 2).Err? ==>
              r == Err(Bus.Read(bus, regs.pc + 2).fault)
  {
    var (r1, b1) :- Next(regs, bus);
    var (r2, b2) :- Next(r1, bus);
    assert OperandByte(regs, bus, 1) == Some(b1) && OperandByte(regs, bus, 2) == Some(b2);
    var amount := ShiftAmount(b2, index, regs);
    if amount >= 16 then Err(ShiftOverflow(amount))
    else
      Pow2Values();
      var address := ShiftLeft(b1, amount, 16);
      assert AbsoluteAddress(regs, index, bus) == Some(address);
      var value :- Bus.Read(bus, address);
      Ok((r2, Operand(M(address), value, 0)))
  }

  /** An absolute address at or past the end of the RAM array faults with the
      RAM's index error, on any bus with a device. */
  lemma AbsolutePastRam(regs: Registers, index: Index, bus: Bus.Bus)
    requires |bus.devices| > 0 && AbsoluteAddress(regs, index, bus).Some?
    requires AbsoluteAddress(regs, index, bus).value >= Memory.MemorySize
    ensures FetchAbsolute(regs, index, bus) == Err(RamIndexOutOfBounds(AbsoluteAddress(regs, index, bus).value))
  {
    Bus.ReadBelowSizeSucceeds(bus, AbsoluteAddress(regs, index, bus).value);
  }

  /** `fetch`, the addressing-mode resolver: the accumulator needs no bus
      access, three modes read operand bytes, and the rest abort. */
  function Fetch(regs: Registers, mode: Mode, bus: Bus.Bus): (r: Result<(Registers, Operand)>)
    ensures mode.Indirect? || mode == Relative || mode == Implied ==> r == Err(UnsupportedMode)
    ensures mode == Accumulator ==> r == Ok((regs, Operand(A, regs.acc, 0)))
    ensures r.Ok? ==> regs.pc + OperandBytes(mode) < 0x1_0000 &&
                      r.value.0 == regs.(pc := regs.pc + OperandBytes(mode))
    ensures r.Ok? ==> r.value.1.additionalCycles == 0
    ensures r.Ok? ==> (r.value.1.location.A? <==> mode == Accumulator)
    ensures r.Ok? && r.value.1.location.M? ==> Bus.Read(bus, r.value.1.location.address) == Ok(r.value.1.value)
    ensures mode == Immediate || mode.ZeroPage? ==> (r.Ok? <==> regs.pc < 0xFFFF && OperandByte(regs, bus, 1).Some?)
    ensures mode == Immediate && r.Ok? ==> r.value.1.location == M(OperandByte(regs, bus, 1).value)
    ensures mode.ZeroPage? && r.Ok? ==>
              r.value.1.location == M(OperandByte(regs, bus, 1).value + IndexValue(mode.zeroPageIndex, regs))
    ensures mode.Absolute? && r.Ok? ==>
              && AbsoluteAddress(regs, mode.absoluteIndex, bus).Some?
              && r.value.1.location == M(AbsoluteAddress(regs, mode.absoluteIndex, bus).value)
    ensures mode == Immediate || mode.ZeroPage? || mode.Absolute? ==>
              && (regs.pc == 0xFFFF ==> r == Err(ProgramCounterOverflow))
              && (regs.pc < 0xFFFF && Bus.Read(bus, regs.pc + 1).Err? ==> r == Err(Bus.Read(bus, regs.pc + 1).fault))
  {
    match mode
    case Accumulator => Ok((regs, Operand(A, regs.acc, 0)))
    case Immediate => FetchImmediate(regs, bus)
    case ZeroPage(index) => FetchZeroPage(regs, index, bus)
    case Absolute(index) => FetchAbsolute(regs, index, bus)
    case Indirect(_) => Err(UnsupportedMode)
    case Relative => Err(UnsupportedMode)
    case Implied => Err(UnsupportedMode)
  }

  /** ADC on a fetched operand. The sum of the accumulator, the operand and
      the carry bit becomes the accumulator modulo 256, the status collapses
      to the Negative mask or zero, and no other register changes. */
  function AdcOn(regs: Registers, operand: Byte): (r: Registers)
    ensures r.acc == (regs.acc + operand + CarryIn(regs.status)) % 0x100
    ensures r.status == (if r.acc >= 0x80 then 0x40 else 0)
    ensures r == regs.(acc := r.acc, status := r.status)
  {
    var sum := AddWithCarry(regs.acc, operand, regs.status);
    LowByte(sum.0, sum.1, regs.acc + operand + CarryIn(regs.status));
    regs.(acc := sum.0, status := AdcStatus(regs.status, regs.acc, sum.0, sum.1))
  }

  /** ADC on registers that differ from `regs` only in the program counter
      yields the sum and the status computed from `regs`. */
  lemma AdcFrame(regs: Registers, fetch: Result<(Registers, Operand)>, pc: Word)
    requires fetch.Ok? && fetch.value.0 == regs.(pc := pc)
    ensures var sum := (regs.acc + fetch.value.1.value + CarryIn(regs.status)) % 0x100;
            AdcOn(fetch.value.0, fetch.value.1.value)
              == regs.(pc := pc, acc := sum, status := if sum >= 0x80 then 0x40 else 0)
  {
  }

  /** ADC: fetch the operand, failing as the fetch fails, then add. */
  function Adc(regs: Registers, mode: Mode, bus: Bus.Bus): (r: Result<Registers>)
    ensures Fetch(regs, mode, bus).Err? ==> r == Err(Fetch(regs, mode, bus).fault)
    ensures Fetch(regs, mode, bus).Ok? ==>
              var v := Fetch(regs, mode, bus).value.1.value;
              var sum := (regs.acc + v + CarryIn(regs.status)) % 0x100;
              && regs.pc + OperandBytes(mode) < 0x1_0000
              && r == Ok(regs.(pc := regs.pc + OperandBytes(mode), acc := sum,
                               status := if sum >= 0x80 then 0x40 else 0))
  {
    var fetch := Fetch(regs, mode, bus);
    if fetch.Err? then Err(fetch.fault)
    else
      AdcFrame(regs, fetch, regs.pc + OperandBytes(mode));
      Ok(AdcOn(fetch.value.0, fetch.value.1.value))
  }

  /** AND on a fetched operand: the accumulator becomes the bitwise AND of
      itself and the operand, and only the status changes besides. */
  function AndOn(regs: Registers, operand: Byte): (r: Registers)
    ensures r.acc == And8(regs.acc, operand)
    ensures r.status == (if r.acc == 0 then (if GetFlag(regs.status, Negative) then 0x40 else 0)
                         else if r.acc >= 0x80 then 0x40 + (if GetFlag(regs.status, Zero) then 0x02 else 0)
                         else 0)
    ensures r == regs.(acc := r.acc, status := r.status)
  {
    var result := And8(regs.acc, operand);
    regs.(acc := result, status := AndStatus(regs.status, result))
  }

  /** AND: fetch the operand, failing as the fetch fails, then combine. */
  function And(regs: Registers, mode: Mode, bus: Bus.Bus): (r: Result<Registers>)
    ensures Fetch(regs, mode, bus).Err? ==> r == Err(Fetch(regs, mode, bus).fault)
    ensures Fetch(regs, mode, bus).Ok? ==>
              var result := And8(regs.acc, Fetch(regs, mode, bus).value.1.value);
              && regs.pc + OperandBytes(mode) < 0x1_0000
              && r == Ok(regs.(pc := regs.pc + OperandBytes(mode), acc := result,
                               status := if result == 0 then (if GetFlag(regs.status, Negative) then 0x40 else 0)
                                         else if result >= 0x80 then 0x40 + (if GetFlag(regs.status, Zero) then 0x02 else 0)
                                         else 0))
  {
    var fetch := Fetch(regs, mode, bus);
    if fetch.Err? then Err(fetch.fault)
    else
      AndFrame(regs, fetch, regs.pc + OperandBytes(mode));
      Ok(AndOn(fetch.value.0, fetch.value.1.value))
  }

  lemma AndFrame(regs: Registers, fetch: Result<(Registers, Operand)>, pc: Word)
    requires fetch.Ok? && fetch.value.0 == regs.(pc := pc)
    ensures var result := And8(regs.acc, fetch.value.1.value);
            AndOn(fetch.value.0, fetch.value.1.value)
              == regs.(pc := pc, acc := result,
                       status := if result == 0 then (if GetFlag(regs.status, Negative) then 0x40 else 0)
                                 else if result >= 0x80 then 0x40 + (if GetFlag(regs.status, Zero) then 0x02 else 0)
                                 else 0)
  {
  }

  /** ASL on a fetched operand: the operand doubled modulo 256 goes back
      where it came from (the accumulator, or the bus at its address), and
      the Carry update receives the operand's bit 7. */
  function AslOn(regs: Registers, bus: Bus.Bus, operand: Operand): (r: (Registers, Bus.Bus))
    ensures var shifted := (2 * operand.value) % 0x100;
            && r.0.status == SetFlag(regs.status, Carry, operand.value >= 0x80)
            && (operand.location.A? ==> r == (regs.(acc := shifted, status := r.0.status), bus))
            && (operand.location.M? ==>
                  r == (regs.(status := r.0.status), Bus.Write(bus, operand.location.address, shifted)))
  {
    var (shifted, carry) := ShiftOut(operand.value);
    LowByte(shifted, carry, 2 * operand.value);
    var status := SetFlag(regs.status, Carry, carry);
    match operand.location
    case A => (regs.(acc := shifted, status := status), bus)
    case M(address) => (regs.(status := status), Bus.Write(bus, address, shifted))
  }

  /** ASL: fetch the operand, failing as the fetch fails, then shift. */
  function Asl(regs: Registers, mode: Mode, bus: Bus.Bus): (r: Result<(Registers, Bus.Bus)>)
    ensures Fetch(regs, mode, bus).Err? ==> r == Err(Fetch(regs, mode, bus).fault)
    ensures Fetch(regs, mode, bus).Ok? ==>
              var operand := Fetch(regs, mode, bus).value.1;
              var shifted := (2 * operand.value) % 0x100;
              var status := SetFlag(regs.status, Carry, operand.value >= 0x80);
              && regs.pc + OperandBytes(mode) < 0x1_0000
              && r.Ok?
              && (mode == Accumulator ==>
                    && operand.value == regs.acc
                    && r.value == (regs.(acc := shifted, status := status), bus))
              && (mode != Accumulator ==>
                    && operand.location.M?
                    && Bus.Read(bus, operand.location.address) == Ok(operand.value)
                    && r.value == (regs.(pc := regs.pc + OperandBytes(mode), status := status),
                                   Bus.Write(bus, operand.location.address, shifted)))
  {
    var (fetched, operand) :- Fetch(regs, mode, bus);
    Ok(AslOn(fetched, bus, operand))
  }

  /** `branch`: consume the offset byte and add it, zero-extended, to the
      program counter in sixteen bits. The target is therefore always 1 to
      256 bytes past the branch's own first byte, modulo 2^16; the signed
      offsets of the 6502 are not interpreted. */
  function Branch(regs: Registers, bus: Bus.Bus): (r: Result<Registers>)
    ensures r.Ok? <==> Next(regs, bus).Ok?
    ensures r.Err? ==> r == Err(Next(regs, bus).fault)
    ensures r.Ok? ==>
              && r.value == regs.(pc := r.value.pc)
              && (r.value.pc - regs.pc) % 0x1_0000 == 1 + Next(regs, bus).value.1
  {
    var (advanced, offset) :- Next(regs, bus);
    Ok(advanced.(pc := (advanced.pc + offset) % 0x1_0000))
  }

  /** A conditional branch: branch when `taken`, otherwise do nothing (the
      offset byte is skipped by the step's final advance). */
  function BranchIf(taken: bool, regs: Registers, bus: Bus.Bus): (r: Result<(Registers, Bus.Bus)>)
    ensures !taken ==> r == Ok((regs, bus))
    ensures taken ==> (r.Ok? <==> regs.pc < 0xFFFF && Bus.Read(bus, regs.pc + 1).Ok?)
    ensures taken && r.Ok? ==>
              r.value == (regs.(pc := (regs.pc + 1 + Bus.Read(bus, regs.pc + 1).value) % 0x1_0000), bus)
    ensures taken && regs.pc == 0xFFFF ==> r == Err(ProgramCounterOverflow)
    ensures taken && regs.pc < 0xFFFF && Bus.Read(bus, regs.pc + 1).Err? ==>
              r == Err(Bus.Read(bus, regs.pc + 1).fault)
  {
    if taken then
      var branched :- Branch(regs, bus);
      Ok((branched, bus))
    else Ok((regs, bus))
  }

  /** The 6502's conditional branches: each tests one flag against one
      value. */
  function BranchCondition(i: Instruction): Option<(Flag, bool)> {
    match i
    case BCC => Some((Carry, false))
    case BCS => Some((Carry, true))
    case BEQ => Some((Zero, true))
    case BMI => Some((Negative, true))
    case BNE => Some((Zero, false))
    case BPL => Some((Negative, false))
    case BVC => Some((Overflow, false))
    case BVS => Some((Overflow, true))
    case _ => None
  }

  /** The flag each CLx instruction clears. */
  function ClearedFlag(i: Instruction): Option<Flag> {
    match i
    case CLC => Some(Carry)
    case CLD => Some(DecimalMode)
    case CLI => Some(InterruptDisable)
    case CLV => Some(Overflow)
    case _ => None
  }

  /** The instructions that resolve an operand through the addressing mode. */
  predicate UsesOperand(i: Instruction) {
    i == ADC || i == AND || i == ASL
  }

  /** `execute`: dispatch on the instruction. ADC, AND and ASL resolve an
      operand; each conditional branch tests its flag and branches when the
      flag has its value; each clear makes the clearing `set_flag` call;
      BIT, BRK and CMP do nothing. Only ASL writes to the bus, and no
      instruction touches the stack pointer or the index registers. */
  function Execute(regs: Registers, bus: Bus.Bus, op: OperationCode): (r: Result<(Registers, Bus.Bus)>)
    ensures op.instruction == ADC ==>
              r == (match Adc(regs, op.mode, bus) case Ok(a) => Ok((a, bus)) case Err(f) => Err(f))
    ensures op.instruction == AND ==>
              r == (match And(regs, op.mode, bus) case Ok(a) => Ok((a, bus)) case Err(f) => Err(f))
    ensures op.instruction == ASL ==> r == Asl(regs, op.mode, bus)
    ensures BranchCondition(op.instruction).Some? ==>
              var (f, value) := BranchCondition(op.instruction).value;
              r == BranchIf(GetFlag(regs.status, f) == value, regs, bus)
    ensures ClearedFlag(op.instruction).Some? ==>
              r == Ok((regs.(status := SetFlag(regs.status, ClearedFlag(op.instruction).value, false)), bus))
    ensures op.instruction in {BIT, BRK, CMP} ==> r == Ok((regs, bus))
    ensures r.Ok? && op.instruction != ASL ==> r.value.1 == bus
    ensures r.Ok? ==> r.value.0.sp == regs.sp && r.value.0.x == regs.x && r.value.0.y == regs.y
    ensures r.Ok? && UsesOperand(op.instruction) ==>
              regs.pc + OperandBytes(op.mode) < 0x1_0000 && r.value.0.pc == regs.pc + OperandBytes(op.mode)
  {
    match op.instruction
    case ADC =>
      var added :- Adc(regs, op.mode, bus);
      Ok((added, bus))
    case AND =>
      var combined :- And(regs, op.mode, bus);
      Ok((combined, bus))
    case ASL => Asl(regs, op.mode, bus)
    case BCC => BranchIf(!GetFlag(regs.status, Carry), regs, bus)
    case BCS => BranchIf(GetFlag(regs.status, Carry), regs, bus)
    case BEQ => BranchIf(GetFlag(regs.status, Zero), regs, bus)
    case BIT => Ok((regs, bus))
    case BMI => BranchIf(GetFlag(regs.status, Negative), regs, bus)
    case BNE => BranchIf(!GetFlag(regs.status, Zero), regs, bus)
    case BPL => BranchIf(!GetFlag(regs.status, Negative), regs, bus)
    case BRK => Ok((regs, bus))
    case BVC => BranchIf(!GetFlag(regs.status, Overflow), regs, bus)
    case BVS => BranchIf(GetFlag(regs.status, Overflow), regs, bus)
    case CLC => Ok((regs.(status := SetFlag(regs.status, Carry, false)), bus))
    case CLD => Ok((regs.(status := SetFlag(regs.status, DecimalMode, false)), bus))
    case CLI => Ok((regs.(status := SetFlag(regs.status, InterruptDisable, false)), bus))
    case CLV => Ok((regs.(status := SetFlag(regs.status, Overflow, false)), bus))
    case CMP => Ok((regs, bus))
  }

  /** `tick`, one fetch-decode-execute step: read the opcode byte at the
      program counter, look it up, execute it, then advance the program
      counter once more. */
  function Tick(regs: Registers, bus: Bus.Bus): (r: Result<(Registers, Bus.Bus)>)
    ensures Bus.Read(bus, regs.pc).Err? ==> r == Err(Bus.Read(bus, regs.pc).fault)
    ensures Bus.Read(bus, regs.pc).Ok? && Lookup(Bus.Read(bus, regs.pc).value, regs.pc).Err? ==>
              r == Err(Lookup(Bus.Read(bus, regs.pc).value, regs.pc).fault)
    ensures r.Ok? ==> r.value.0.sp == regs.sp && r.value.0.x == regs.x && r.value.0.y == regs.y
  {
    var opcode :- Bus.Read(bus, regs.pc);
    var op :- Lookup(opcode, regs.pc);
    var (executed, written) :- Execute(regs, bus, op);
    var (advanced, _) :- Next(executed, written);
    Ok((advanced, written))
  }
}
