/** Concrete runs: the two programs the repository's own tests execute, and
    small inputs on which the emulator departs from the MOS 6502 it
    imitates. */
module Scenarios {
  import opened Types
  import Steps
  import opened Bits
  import opened ByteOps
  import opened Status
  import opened Opcodes
  import opened Alu
  import opened Cpu6502
  import Memory
  import Bus

  /** ADC in immediate mode at address 0, on any RAM at base 0 that holds
      0x69 there: the byte after the opcode is taken as an address, the byte
      at that address is added to the accumulator with the carry, and the
      step ends at address 2. */
  lemma AdcImmediateRun(regs: Registers, memory: Memory.Ram)
    requires regs.pc == 0 && memory.base == 0 && memory.data[0] == 0x69
    ensures Tick(regs, Bus.New(memory))
            == Ok((AdcOn(regs.(pc := 1), memory.data[memory.data[1]]).(pc := 2), Bus.New(memory)))
  {
    var bus := Bus.New(memory);
    var op := OperationCode(ADC, Immediate, 2, 2);
    assert Bus.Read(bus, 0) == Ok(0x69);
    assert Lookup(0x69, 0) == Ok(op);
    Steps.TickIsExecuteThenNext(regs, bus, op);
    var fetched := regs.(pc := 1);
    ImmediateOperand(regs, memory);
    assert Adc(regs, Immediate, bus) == Ok(AdcOn(fetched, memory.data[memory.data[1]]));
    assert Bus.Read(bus, 2).Ok?;
  }

  /** Immediate mode at address 0 on a RAM at base 0 dereferences the byte
      at address 1. */
  lemma ImmediateOperand(regs: Registers, memory: Memory.Ram)
    requires regs.pc == 0 && memory.base == 0
    ensures var address := memory.data[1];
            Fetch(regs, Immediate, Bus.New(memory))
            == Ok((regs.(pc := 1), Operand(M(address), memory.data[address], 0)))
  {
    var bus := Bus.New(memory);
    var address := memory.data[1];
    assert Bus.Read(bus, 1) == Ok(address);
    assert Bus.Read(bus, address) == Ok(memory.data[address]);
  }

  /** The ADC test: 0x69 0x01 written through the bus onto a zeroed RAM at
      base 0, then one tick from the reset registers. The accumulator
      becomes 1 (address 1 holds 1), no flag is set, and the program counter
      stops at 2. */
  lemma AdcTestProgram(regs: Registers, blank: Memory.Ram)
    requires regs == Reset() && blank == Memory.New(0)
    ensures var bus := Bus.Write(Bus.Write(Bus.New(blank), 0x0000, 0x69), 0x0001, 0x01);
            Tick(regs, bus).Ok? && Tick(regs, bus).value.0 == Registers(2, 0, 1, 0, 0, 0)
  {
    var bus := Bus.Write(Bus.Write(Bus.New(blank), 0x0000, 0x69), 0x0001, 0x01);
    var memory := AdcTestRam(blank);
    ResetRegisters(regs);
    AdcTestTick(regs, memory);
  }

  /** The reset registers start at address 0 with a zero accumulator and the
      status clear; adding 1 to them and moving to address 2 gives the
      registers the test expects. */
  lemma ResetRegisters(regs: Registers)
    requires regs == Reset()
    ensures regs.pc == 0 && regs.acc == 0 && regs.status == 0
    ensures regs.(pc := 2, acc := 1) == Registers(2, 0, 1, 0, 0, 0)
  {
  }

  /** One tick of the ADC test's program from a zero accumulator and a
      clear status. */
  lemma AdcTestTick(regs: Registers, memory: Memory.Ram)
    requires regs.pc == 0 && regs.acc == 0 && regs.status == 0
    requires memory.base == 0 && memory.data[0] == 0x69 && memory.data[1] == 0x01
    ensures Tick(regs, Bus.New(memory)) == Ok((regs.(pc := 2, acc := 1), Bus.New(memory)))
  {
    ZeroStatusFlags(regs.status, Carry);
    AdcImmediateRun(regs, memory);
    AddOneFromReset(regs, memory.data[memory.data[1]]);
  }

  /** The RAM the ADC test's two writes leave. */
  function AdcTestRam(blank: Memory.Ram): (m: Memory.Ram)
    requires blank.base == 0
    ensures m.base == 0 && m.data[0] == 0x69 && m.data[1] == 0x01
    ensures Bus.Write(Bus.Write(Bus.New(blank), 0x0000, 0x69), 0x0001, 0x01) == Bus.New(m)
  {
    Bus.SingleDeviceWrite(blank, 0, 0x69);
    var m1 := Memory.Write(blank, 0, 0x69).value;
    Bus.SingleDeviceWrite(m1, 1, 0x01);
    Memory.Write(m1, 1, 0x01).value
  }

  /** Adding 1 with the carry clear to a zero accumulator. */
  lemma AddOneFromReset(regs: Registers, one: Byte)
    requires regs.acc == 0 && !GetFlag(regs.status, Carry) && one == 0x01
    ensures AdcOn(regs.(pc := 1), one).(pc := 2) == regs.(pc := 2, acc := 1, status := 0)
  {
    AdcSmallSum(regs.(pc := 1), one);
  }

  /** With the carry clear and a sum below 0x80, ADC leaves the plain sum in
      the accumulator and a zero status. */
  lemma AdcSmallSum(regs: Registers, operand: Byte)
    requires !GetFlag(regs.status, Carry) && regs.acc + operand < 0x80
    ensures AdcOn(regs, operand) == regs.(acc := regs.acc + operand, status := 0)
  {
    var r := AdcOn(regs, operand);
    assert CarryIn(regs.status) == 0;
    assert r.acc == regs.acc + operand;
  }

  /** ASL in absolute mode at address 0, on any RAM at base 0 that holds
      0x0E 0x01 0x00 there: the operand bytes give `1 << (8 + 0)`, which is
      0x100, so ASL works on the byte at 0x100 and the step ends at address
      3. */
  lemma AslAbsoluteRun(regs: Registers, memory: Memory.Ram)
    requires regs.pc == 0 && memory.base == 0
    requires memory.data[0] == 0x0E && memory.data[1] == 0x01 && memory.data[2] == 0x00
    ensures var operand := Operand(M(0x100), memory.data[0x100], 0);
            var shifted := AslOn(regs.(pc := 2), Bus.New(memory), operand);
            Tick(regs, Bus.New(memory)) == Ok((shifted.0.(pc := 3), shifted.1))
  {
    var bus := Bus.New(memory);
    var op := OperationCode(ASL, Absolute(N), 3, 6);
    assert Bus.Read(bus, 0) == Ok(0x0E);
    assert Lookup(0x0E, 0) == Ok(op);
    Steps.TickIsExecuteThenNext(regs, bus, op);
    AbsoluteOperand(regs, memory);
    var operand := Operand(M(0x100), memory.data[0x100], 0);
    var shifted := AslOn(regs.(pc := 2), bus, operand);
    assert |shifted.1.devices| == 1;
    Bus.ReadBelowSizeSucceeds(shifted.1, 3);
  }

  /** Absolute mode at address 0 with operand bytes 0x01 0x00, on a RAM at
      base 0, addresses 0x100. */
  lemma AbsoluteOperand(regs: Registers, memory: Memory.Ram)
    requires regs.pc == 0 && memory.base == 0 && memory.data[1] == 0x01 && memory.data[2] == 0x00
    ensures Fetch(regs, Absolute(N), Bus.New(memory))
            == Ok((regs.(pc := 2), Operand(M(0x100), memory.data[0x100], 0)))
  {
    var bus := Bus.New(memory);
    assert Bus.Read(bus, 1) == Ok(0x01);
    assert Bus.Read(bus, 2) == Ok(0x00);
    assert ShiftAmount(0x00, N, regs) == 8;
    Pow2Values();
    assert ShiftLeft(1, 8, 16) == 0x100;
    assert Bus.Read(bus, 0x100) == Ok(memory.data[0x100]);
  }

  /** The absolute-addressing test: 2 stored at 0x100 and the program
      0x0E 0x01 0x00 written through the bus onto a zeroed RAM at base 0;
      after one tick from the reset registers, address 0x100 holds 4. */
  lemma AslTestProgram(regs: Registers, blank: Memory.Ram)
    requires regs == Reset() && blank == Memory.New(0)
    ensures var bus := Bus.Write(Bus.Write(Bus.Write(Bus.Write(Bus.New(blank),
                         0x0100, 0x02), 0x0000, 0x0E), 0x0001, 0x01), 0x0002, 0x00);
            Tick(regs, bus).Ok? && Bus.Read(Tick(regs, bus).value.1, 0x0100) == Ok(0x04)
  {
    var memory := AslTestRam(blank);
    AslDoublesTwo(regs, memory);
  }

  /** One tick of the test's program leaves 4 at 0x100. */
  lemma AslDoublesTwo(regs: Registers, memory: Memory.Ram)
    requires regs.pc == 0 && memory.base == 0
    requires memory.data[0] == 0x0E && memory.data[1] == 0x01 && memory.data[2] == 0x00
    requires memory.data[0x100] == 0x02
    ensures Tick(regs, Bus.New(memory)).Ok? && Bus.Read(Tick(regs, Bus.New(memory)).value.1, 0x100) == Ok(0x04)
  {
    AslAbsoluteRun(regs, memory);
    DoubleInPlace(regs.(pc := 2), memory);
  }

  /** The RAM the absolute-addressing test's four writes leave. */
  function AslTestRam(blank: Memory.Ram): (m: Memory.Ram)
    requires blank.base == 0
    ensures m.base == 0 && m.data[0] == 0x0E && m.data[1] == 0x01 && m.data[2] == 0x00 && m.data[0x100] == 0x02
    ensures Bus.Write(Bus.Write(Bus.Write(Bus.Write(Bus.New(blank), 0x0100, 0x02), 0x0000, 0x0E), 0x0001, 0x01), 0x0002, 0x00)
            == Bus.New(m)
  {
    Bus.SingleDeviceWrite(blank, 0x100, 0x02);
    var m1 := Memory.Write(blank, 0x100, 0x02).value;
    Bus.SingleDeviceWrite(m1, 0, 0x0E);
    var m2 := Memory.Write(m1, 0, 0x0E).value;
    Bus.SingleDeviceWrite(m2, 1, 0x01);
    var m3 := Memory.Write(m2, 1, 0x01).value;
    Bus.SingleDeviceWrite(m3, 2, 0x00);
    Memory.Write(m3, 2, 0x00).value
  }

  /** ASL on the byte 2 at 0x100 of a RAM at base 0 leaves 4 there. */
  lemma DoubleInPlace(regs: Registers, memory: Memory.Ram)
    requires memory.base == 0 && memory.data[0x100] == 0x02
    ensures Bus.Read(AslOn(regs, Bus.New(memory), Operand(M(0x100), 0x02, 0)).1, 0x100) == Ok(0x04)
  {
    Bus.RoundTrip(memory, 0x100, 0x04, 0x100);
  }

  /** Whatever it adds, ADC leaves Carry, Zero and Overflow clear, and
      Negative set exactly when bit 7 of the result is. */
  lemma AdcFlagsReported(regs: Registers, operand: Byte)
    ensures var r := AdcOn(regs, operand);
            && !GetFlag(r.status, Carry) && !GetFlag(r.status, Zero) && !GetFlag(r.status, Overflow)
            && (GetFlag(r.status, Negative) <==> r.acc >= 0x80)
  {
    var r := AdcOn(regs, operand);
    CollapsedFlags(r.status, r.acc);
  }

  /** The status ADC leaves, the Negative mask or zero by bit 7 of the
      result, reports nothing but Negative. */
  lemma CollapsedFlags(status: Byte, result: Byte)
    requires status == (if result >= 0x80 then Mask(Negative) else 0)
    ensures !GetFlag(status, Carry) && !GetFlag(status, Zero) && !GetFlag(status, Overflow)
    ensures GetFlag(status, Negative) <==> result >= 0x80
  {
    if result >= 0x80 {
      NegativeMaskFlags(status);
    } else {
      ZeroStatusFlags(status, Carry);
      ZeroStatusFlags(status, Zero);
      ZeroStatusFlags(status, Overflow);
      ZeroStatusFlags(status, Negative);
    }
  }

  /** The Negative mask alone reports Negative and nothing else. */
  lemma NegativeMaskFlags(status: Byte)
    requires status == Mask(Negative)
    ensures !GetFlag(status, Carry) && !GetFlag(status, Zero) && !GetFlag(status, Overflow)
    ensures GetFlag(status, Negative)
  {
    FlagOfMask(Negative, Carry);
    FlagOfMask(Negative, Zero);
    FlagOfMask(Negative, Overflow);
    FlagOfMask(Negative, Negative);
  }

  /** A zero status reports no flag. */
  lemma ZeroStatusFlags(status: Byte, f: Flag)
    requires status == 0
    ensures !GetFlag(status, f)
  {
    FlagAboveValue(status, f);
  }

  /** 0xFF + 0x01 with the carry clear: the sum 0x100 carries out of bit 7
      and leaves zero, yet neither Carry nor Zero is reported. */
  lemma AdcDropsCarryAndZero(regs: Registers)
    requires regs.acc == 0xFF && !GetFlag(regs.status, Carry)
    ensures regs.acc + 0x01 >= 0x100
    ensures AdcOn(regs, 0x01).acc == 0
    ensures !GetFlag(AdcOn(regs, 0x01).status, Carry) && !GetFlag(AdcOn(regs, 0x01).status, Zero)
  {
    AdcFlagsReported(regs, 0x01);
  }

  /** 0x50 + 0x50 with the carry clear: two positive bytes give 0xA0, a
      two's-complement overflow, yet Overflow is not reported. */
  lemma AdcDropsOverflow(regs: Registers)
    requires regs.acc == 0x50 && !GetFlag(regs.status, Carry)
    ensures AdcOn(regs, 0x50).acc == 0xA0 && SignedOverflow(0x50, 0x50, 0xA0)
    ensures !GetFlag(AdcOn(regs, 0x50).status, Overflow) && GetFlag(AdcOn(regs, 0x50).status, Negative)
  {
    AdcFlagsReported(regs, 0x50);
  }

  /** A zero result of AND never leaves Zero set: the Negative update that
      follows clears every bit but bit 6. */
  lemma AndDropsZero(regs: Registers, operand: Byte)
    requires And8(regs.acc, operand) == 0
    ensures !GetFlag(AndOn(regs, operand).status, Zero)
  {
    var r := AndOn(regs, operand);
    if r.status == 0 {
      FlagAboveValue(r.status, Zero);
    } else {
      assert r.status == Mask(Negative);
      FlagOfMask(Negative, Zero);
    }
  }

  /** A clear instruction keeps its own flag's bit as it was and clears the
      other seven, where clearing through the complement of the mask would
      clear that one bit and keep the other seven. */
  lemma ClearKeepsOnlyItsOwnBit(regs: Registers, bus: Bus.Bus, op: OperationCode, i: nat)
    requires ClearedFlag(op.instruction).Some? && i < 8
    ensures var f := ClearedFlag(op.instruction).value;
            && Execute(regs, bus, op).Ok?
            && Bit(Execute(regs, bus, op).value.0.status, i) == (if i == Position(f) then Bit(regs.status, i) else 0)
            && Bit(ClearFlag(regs.status, f), i) == (if i == Position(f) then 0 else Bit(regs.status, i))
  {
    var f := ClearedFlag(op.instruction).value;
    SetFlagBits(regs.status, f, false, i);
  }

  /** Zero-page indexing is done in sixteen bits: base 0xFF with X = 1
      addresses 0x100, outside page zero, where the 6502 wraps to 0x00. */
  lemma ZeroPageLeavesPage(regs: Registers, bus: Bus.Bus)
    requires regs.pc < 0xFFFF && regs.x == 0x01 && |bus.devices| > 0
    requires Bus.Read(bus, regs.pc + 1) == Ok(0xFF)
    ensures Fetch(regs, ZeroPage(X), bus).Ok?
    ensures Fetch(regs, ZeroPage(X), bus).value.1.location == M(0x100)
  {
    assert Fetch(regs, ZeroPage(X), bus) == FetchZeroPage(regs, X, bus);
    assert OperandByte(regs, bus, 1) == Some(0xFF);
    IndexReadsNamedRegister(X, regs, regs);
  }

  /** Absolute mode shifts its first operand byte by eight plus the second:
      the bytes 0x01 0x01 address 0x200, where reading them as a big-endian
      word, as the repository's test encodes addresses, gives 0x101. */
  lemma AbsoluteShiftsFirstByte(regs: Registers, bus: Bus.Bus)
    requires regs.pc < 0xFFFE && |bus.devices| > 0
    requires Bus.Read(bus, regs.pc + 1) == Ok(0x01) && Bus.Read(bus, regs.pc + 2) == Ok(0x01)
    ensures Fetch(regs, Absolute(N), bus).Ok?
    ensures Fetch(regs, Absolute(N), bus).value.1.location == M(0x200)
  {
    assert ShiftAmount(0x01, N, regs) == 9;
    ShiftNine();
    Bus.ReadBelowSizeSucceeds(bus, 0x200);
    assert Fetch(regs, Absolute(N), bus) == FetchAbsolute(regs, N, bus);
  }

  /** One shifted nine places in sixteen bits is 0x200. */
  lemma ShiftNine()
    ensures ShiftLeft(0x01, 9, 16) == 0x200
  {
    Pow2Values();
    assert Pow2(9) == 0x200;
  }
}
