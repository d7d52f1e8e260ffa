# A Dafny model of the 6502-rs processor core

This project models the emulated MOS 6502 of the Rust repository
SomeDudeOnThisPage/6502-rs. It covers three parts:

- the processor: its register file, the opcode table, the addressing-mode
  resolver `fetch`, the instructions ADC, AND and ASL, the conditional
  branches, the flag clears, and the `tick` step;
- the bus, which routes reads and writes to its attached devices;
- the random-access memory, the only device the repository attaches.

The model follows the Rust code literally, including the places where the
code departs from the real 6502. The code is mutable and object-oriented.
Here every operation is a pure function: it takes the registers and the bus
and returns the new ones. Every `panic!`, and every debug-build arithmetic
or index panic, becomes a `Fault` returned through `Result`.

Modules, by file:

- `Types` (types.dfy): `Byte`, `Word`, `Option`, `Fault` and `Result`.
- `Bits` and `ByteOps` (bits.dfy): bitwise AND/OR/XOR/NOT and shifts,
  defined over natural numbers bit by bit.
- `Memory` (memory.dfy): `RandomAccessMemory`.
- `Bus` (bus.dfy): `Bus`.
- `Status` (status.dfy): the `Flags` masks, `get_flag` and `set_flag`.
- `Opcodes` (opcodes.dfy): the instruction and addressing-mode enums, the
  0xFF-entry table filled in by `CPU6502::new`, and the lookup `tick` makes
  in that table.
- `Alu` (alu.dfy): the byte arithmetic and flag updates of ADC, AND and ASL.
- `Cpu6502` (cpu.dfy): the registers, `next`, `fetch`, `adc`, `and`, `asl`,
  `branch`, `execute` and `tick`.
- `Steps` (steps.dfy): properties of a whole tick.
- `Scenarios` (scenarios.dfy): the two programs in the repository's unit
  tests, and small inputs that show each departure from the 6502.

## Model

| member | source | states |
|---|---|---|
| Memory.New | src/components/memory.rs:10-12 | A new RAM has the given base address and every byte zero |
| Memory.AddressSpaceIgnoresBase | src/components/memory.rs:16-18 | The claimed range is base up to the fixed size 0x7FFF, whatever the base; a RAM whose base is 0x7FFF or more claims no address |
| Memory.Read | src/components/memory.rs:20-22 | A read succeeds exactly for addresses below 0x7FFF. It returns the byte at the absolute address, without subtracting the base. Past the end it faults with the index error |
| Memory.Write | src/components/memory.rs:24-26 | A write succeeds exactly below 0x7FFF, stores the byte at the absolute address and changes no other byte; past the end it faults |
| Memory.ReadAfterWrite | src/components/memory.rs:20-26 | Reading an address just written gives the byte written |
| Memory.WriteFrame | src/components/memory.rs:20-26 | A write leaves every other address and the address space unchanged |
| Bus.FirstMatch | src/components/bus.rs:22-27 | Returns the first device whose space holds the address, and nothing exactly when no device claims it |
| Bus.FirstMatchUnique | src/components/bus.rs:22-27 | The first claiming device is unique |
| Bus.Read | src/components/bus.rs:19-31 | Reads from the first claiming device, or from device 0 when none claims the address; with no device attached it faults |
| Bus.ReadBelowSizeSucceeds | src/components/bus.rs:19-31 | With a device attached, a read succeeds exactly below 0x7FFF, whichever device answers; at or past 0x7FFF it faults with the RAM's index error |
| Bus.Write | src/components/bus.rs:8-17 | Writes into the first claiming device only and leaves the others alone; an address no device claims is dropped and the bus stays unchanged |
| Bus.New | src/components/bus.rs:33-35 | The new bus has exactly the given RAM, and reading through it is reading that RAM |
| Bus.SingleDeviceWrite | src/components/bus.rs:8-17 | On a one-RAM bus, a write lands in the RAM when the RAM claims the address and is dropped otherwise |
| Bus.RoundTrip | src/components/bus.rs:8-31 | On a one-RAM bus at base 0, reading back a written address gives the byte written, and every other address is unchanged |
| Bus.BelowBase | src/components/bus.rs:8-31 | Below the RAM's base a write is dropped, yet a read still reaches the RAM through the device-0 fallback |
| Bus.Shadowed | src/components/bus.rs:8-31 | A device behind an earlier device that claims the same address is never written and never read at that address |
| Status.Mask | src/components/cpu6502.rs:18-26 | Each flag's mask is the power of two of its bit: Carry 0, Zero 1, InterruptDisable 2, DecimalMode 3, BreakCommand 4, Overflow 5, Negative 6 |
| Status.MasksDistinct | src/components/cpu6502.rs:18-26 | Distinct flags have distinct masks, all below 0x80 |
| Status.GetFlag | src/components/cpu6502.rs:81-83 | A flag reads as set exactly when its bit of the status is 1 |
| Status.FlagOfMask | src/components/cpu6502.rs:81-83 | A status equal to one flag's mask has that flag set and no other |
| Status.FlagAboveValue | src/components/cpu6502.rs:81-83 | A status below a flag's mask has that flag clear |
| Status.SetFlag | src/components/cpu6502.rs:85-90 | Setting adds the mask unless the flag is already set. Clearing leaves the mask alone when the flag was set and zero otherwise |
| Status.SetFlagBits | src/components/cpu6502.rs:85-90 | Bit by bit: setting turns the flag's bit on and keeps the others; clearing keeps the flag's bit and zeroes all the others |
| Status.ClearFlag | src/components/cpu6502.rs:88 | The intended clear through the complement of the mask: the flag's bit becomes 0 and every other bit is kept |
| Status.ClearAsWritten | src/components/cpu6502.rs:88 | Clearing Carry in the all-ones status as written gives 0x01 |
| Status.ClearAsIntended | src/components/cpu6502.rs:88 | Clearing Carry in the all-ones status as intended gives 0xFE |
| Opcodes.Slot | src/components/cpu6502.rs:256-630 | Every table entry's byte count is one plus its mode's operand bytes; BRK and the clears are implied; every branch is relative |
| Opcodes.TableShape | src/components/cpu6502.rs:256-630 | Exactly 44 opcodes are populated, and a slot is populated exactly when its opcode is in the sorted list of them |
| Opcodes.PopulatedListed | src/components/cpu6502.rs:256-630 | A populated slot is in the list |
| Opcodes.ListedPopulated | src/components/cpu6502.rs:256-630 | Every listed opcode indexes a populated slot of the 0xFF-entry table |
| Opcodes.Lookup | src/components/cpu6502.rs:245-253 | Opcode 0xFF lies past the 0xFF-entry table and faults; an empty slot faults with the opcode and its address; otherwise the slot's entry is returned |
| Alu.AddWithCarry | src/components/cpu6502.rs:162-164 | The low byte and the carry-out together equal the sum of accumulator, operand and carry bit |
| Alu.CarryIn | src/components/cpu6502.rs:162 | `status & 0x01` is 1 exactly when Carry is set |
| Alu.AdcStatus | src/components/cpu6502.rs:166-169 | The four flag updates leave 0x40 when bit 7 of the result is set and 0 otherwise, whatever the status before |
| Alu.AdcFlags | src/components/cpu6502.rs:167-169 | The Overflow, Zero and Negative updates after any Carry update leave 0x40 or 0 by bit 7 of the result |
| Alu.OverflowTestNeverHolds | src/components/cpu6502.rs:167 | `(a ^ r) & !(a ^ r) == 1` is false for every accumulator and result |
| Alu.AndStatus | src/components/cpu6502.rs:181-182 | The closed form of the Zero and Negative updates of AND, in terms of the result and the flags before |
| Alu.ShiftOut | src/components/cpu6502.rs:191-198 | The shifted byte and the bit shifted out together equal twice the operand |
| Cpu6502.Reset | src/components/cpu6502.rs:69-79 | The new register file has every register zero (program counter, stack pointer, accumulator, X, Y and status), so no flag is set |
| Cpu6502.Next | src/components/cpu6502.rs:210-213 | Succeeds exactly when the program counter is below 0xFFFF and the byte after it reads; it then advances the counter by one and returns that byte. At 0xFFFF it faults with the counter overflow, and a failed read faults with the bus read's own fault |
| Cpu6502.FetchImmediate | src/components/cpu6502.rs:135-138 | Consumes one byte and uses it as an address: the operand is the byte at that address. It succeeds exactly when the operand byte reads; at pc 0xFFFF it faults with the counter overflow and a failed operand-byte read faults with that read's fault |
| Cpu6502.FetchZeroPage | src/components/cpu6502.rs:139-142 | Consumes one byte and adds the index register in sixteen bits, with no wrap to page zero; the operand is the byte at that address. It succeeds exactly when the operand byte reads; at pc 0xFFFF it faults with the counter overflow and a failed operand-byte read faults with that read's fault |
| Cpu6502.IndexReadsNamedRegister | src/components/cpu6502.rs:123-129 | The index added to a base address is 0 for the plain sub-mode and the named X or Y register otherwise, and depends on no other register |
| Cpu6502.FetchAbsolute | src/components/cpu6502.rs:143-146 | Consumes two bytes b1, b2 and addresses b1 << (8 + b2 + index) in sixteen bits. It succeeds exactly when both bytes are readable, the shift is below 16 and the address reads, advancing the program counter by 2 and returning that address and its byte. A shift of 16 or more faults with the shift amount, and a failed read of the address faults as the bus read does. A counter overflow while consuming either byte faults with the counter overflow, and a failed read of either byte faults with that read's fault |
| Cpu6502.AbsolutePastRam | src/components/cpu6502.rs:143-146 | An absolute address at or past 0x7FFF faults with the RAM's index error at that address |
| Cpu6502.Fetch | src/components/cpu6502.rs:121-157 | The accumulator mode reads the accumulator with no bus access. Indirect, relative and implied modes fault. Success advances the program counter by the mode's operand bytes, with zero extra cycles, and a memory operand's value is the byte the bus reads at its address. That address is the operand byte for immediate mode, the operand byte plus the index for zero-page mode and the absolute address for absolute mode. Immediate and zero-page modes succeed exactly when the operand byte reads, and every memory mode faults with the counter overflow or with the failed operand read's fault |
| Cpu6502.AdcOn | src/components/cpu6502.rs:159-171 | The accumulator becomes accumulator + operand + carry modulo 256 and the status becomes 0x40 or 0 by bit 7; nothing else changes |
| Cpu6502.Adc | src/components/cpu6502.rs:159-174 | ADC fails exactly as its fetch fails. Otherwise the program counter advances by the mode's operand bytes, the accumulator becomes accumulator + operand + carry modulo 256, the status becomes 0x40 when bit 7 of that sum is set and 0 otherwise, and no other register changes |
| Cpu6502.AndOn | src/components/cpu6502.rs:176-184 | The accumulator becomes the bitwise AND and the status follows the Zero-then-Negative updates; nothing else changes |
| Cpu6502.And | src/components/cpu6502.rs:176-187 | AND fails exactly as its fetch fails. Otherwise the program counter advances by the mode's operand bytes and the accumulator becomes its bitwise AND with the operand. The status becomes 0x40 or 0 by the old Negative flag for a zero result, 0x40 plus the old Zero bit for a result with bit 7 set, and 0 for any other result. No other register changes |
| Cpu6502.AslOn | src/components/cpu6502.rs:189-204 | Twice the operand modulo 256 goes back to the accumulator or to the bus address it came from. Carry is updated with the operand's bit 7 |
| Cpu6502.Asl | src/components/cpu6502.rs:189-204 | ASL fails exactly as its fetch fails, and otherwise succeeds. The status takes the Carry update from the operand's bit 7. In accumulator mode the accumulator becomes twice itself modulo 256 and the bus is untouched. In a memory mode the program counter advances by the operand bytes and the bus changes only by writing twice the byte read modulo 256 back to the resolved address. No other register changes |
| Cpu6502.Branch | src/components/cpu6502.rs:206-213 | A branch consumes its offset byte and changes only the program counter, which moves 1 plus the offset modulo 2^16; it fails exactly when `next` fails |
| Cpu6502.BranchIf | src/components/cpu6502.rs:220-229 | An untaken branch changes nothing. A taken one succeeds exactly when the program counter is below 0xFFFF and the offset byte after it reads; it then sets the program counter to pc + 1 + offset modulo 2^16 and changes nothing else. At 0xFFFF it faults with the counter overflow, and a failed offset read faults as the bus read does |
| Cpu6502.Execute | src/components/cpu6502.rs:215-236 | Per instruction: ADC, AND and ASL apply their operation; each branch tests its flag; each clear makes the clearing call; BIT, BRK and CMP do nothing. Only ASL writes the bus; sp, x and y never change |
| Cpu6502.Tick | src/components/cpu6502.rs:242-254 | A failed opcode read or lookup aborts the tick with that fault; a successful tick never changes sp, x or y |
| Steps.TickProgramCounter | src/components/cpu6502.rs:206-254 | ADC, AND, ASL, the clears and BRK advance the program counter by the entry's byte count. BIT, CMP and an untaken branch advance it by one. A taken branch ends one past pc + 1 + offset, modulo 2^16 |
| Steps.BranchTarget | src/components/cpu6502.rs:206-213 | A branch lands at the address of its offset byte plus the offset, modulo 2^16 |
| Steps.DecodedEntry | src/components/cpu6502.rs:243-247 | A decoded entry has its mode's byte count, and BRK and the clears decode as implied |
| Steps.UnsupportedModeFaults | src/components/cpu6502.rs:147-155 | ADC, AND or ASL in an indirect, relative or implied mode aborts the tick |
| Scenarios.AdcImmediateRun | src/components/cpu6502.rs:135-138 | ADC immediate at address 0 adds the byte at the address named by its operand byte, and the tick ends at address 2 |
| Scenarios.AdcTestProgram | src/components/mod.rs:33-39 | The ADC test program, run from reset, ends with accumulator 1, no flag set and the program counter at 2 |
| Scenarios.AdcSmallSum | src/components/cpu6502.rs:159-171 | With the carry clear and a sum below 0x80, ADC stores the plain sum and clears the status |
| Scenarios.AslAbsoluteRun | src/components/cpu6502.rs:143-145 | ASL absolute with operand bytes 0x01 0x00 at address 0 shifts the byte at 0x100, and the tick ends at address 3 |
| Scenarios.AslTestProgram | src/components/mod.rs:19-31 | The absolute-addressing test program, run from reset, leaves 4 at 0x100 |
| Scenarios.DoubleInPlace | src/components/cpu6502.rs:197-198 | ASL on the byte 2 at 0x100 leaves 4 there |
| Scenarios.AdcFlagsReported | src/components/cpu6502.rs:166-169 | After any ADC, Carry, Zero and Overflow are clear, and Negative is set exactly when bit 7 of the accumulator is |
| Scenarios.AdcDropsCarryAndZero | src/components/cpu6502.rs:162-168 | 0xFF + 0x01 carries out and gives zero, yet neither Carry nor Zero is reported |
| Scenarios.AdcDropsOverflow | src/components/cpu6502.rs:167 | 0x50 + 0x50 is a signed overflow, yet Overflow is not reported |
| Scenarios.AndDropsZero | src/components/cpu6502.rs:181-182 | An AND whose result is zero never leaves Zero set |
| Scenarios.ClearKeepsOnlyItsOwnBit | src/components/cpu6502.rs:230-233 | A clear instruction keeps its own bit and zeroes the other seven, the opposite of the intended clear |
| Scenarios.ZeroPageLeavesPage | src/components/cpu6502.rs:140 | Zero-page base 0xFF indexed by X = 1 addresses 0x100 |
| Scenarios.AbsoluteShiftsFirstByte | src/components/cpu6502.rs:144 | The absolute operand bytes 0x01 0x01 address 0x200 |

## Divergences from the 6502

The model keeps each of these as the code has it. A lemma documents each
one.

- `set_flag(_, false)` ANDs with the mask instead of its complement. It
  keeps the flag's own bit and zeroes the other seven (`Status.SetFlagBits`,
  `Status.ClearAsWritten`, `Scenarios.ClearKeepsOnlyItsOwnBit`).
  `Status.ClearFlag` is the intended clear, kept as a reference definition.
- As a result, ADC always ends with status 0x40 or 0 (`Alu.AdcStatus`). An
  AND whose result is zero never leaves Zero set (`Scenarios.AndDropsZero`).
- The ADC overflow test `(a ^ r) & !(a ^ r) == 1` can never hold
  (`Alu.OverflowTestNeverHolds`). The two's-complement test is
  `Alu.SignedOverflow` (`Scenarios.AdcDropsOverflow`).
- Negative is bit 6 and Overflow bit 5, where the 6502 has bits 7 and 6
  (`Status.Mask`).
- Immediate mode treats its operand byte as an address
  (`Cpu6502.FetchImmediate`).
- Zero-page indexing does not wrap within page zero
  (`Scenarios.ZeroPageLeavesPage`).
- In absolute mode `+` binds tighter than `<<`. The address is therefore
  `b1 << (8 + b2 + index)`, and a shift of 16 or more is a debug-build
  panic (`Cpu6502.FetchAbsolute`, `Scenarios.AbsoluteShiftsFirstByte`).
- Branches zero-extend their offset (see below). BIT, BRK and CMP do
  nothing. BIT and CMP advance the program counter by one only, so their
  operand bytes are decoded as opcodes next (`Steps.TickProgramCounter`).
- The table has 0xFF slots, so opcode 0xFF is out of bounds
  (`Opcodes.Lookup`).
- The RAM indexes its data by the absolute address and claims up to 0x7FFF
  whatever its base. A bus read that no device claims falls back to device 0
  (`Memory.Read`, `Bus.BelowBase`).

## Left out

- Branch: line 207 of src/components/cpu6502.rs does not compile, because
  `program_counter as i16 += …` assigns to a cast. The model reads its
  evident intent: consume the offset byte with `next`, then add the offset
  zero-extended, modulo 2^16. A sign-extending reading would differ for
  offsets of 0x80 and above.
- Cpu6502.Tick: its own contract states only the fault cases and the frame.
  What a decoded tick does to the program counter is stated by
  `Steps.TickProgramCounter`, and what each instruction does to the other
  registers and the bus by the contracts of `Cpu6502.Adc`, `Cpu6502.And`,
  `Cpu6502.Asl` and `Cpu6502.BranchIf`.
- Bus.Read: an empty device list, an index panic in the code, becomes the
  fault `NoDevice`. `Bus.New` never builds one.
- The `Addressable` trait of src/components/device.rs is not modelled as an
  interface. RAM is the only device, so the bus holds a sequence of RAMs.
- `dbg!`, `println!` and `dump_registers` are output only and are left out.
  So is the "NoDeviceFound" message of a dropped bus write.
- Cycle counts are kept in the table as data and never accumulated. The
  code ignores them too.
- The stack pointer is carried and never used, as in the code.
- Interrupts, decimal mode and the instructions missing from the enum are
  not implemented in the code, and so not in the model.
- Arithmetic overflow follows debug-build semantics. Only the program
  counter increment and the absolute-mode shift can overflow, and both
  become faults.
- src/main.rs and src/components2.rs are not part of this model. They hold
  a separate processor design, `ScottCPU`, with its own bus and memory.
