/** The one concrete device: a fixed-size random-access memory that can be
    mapped into the address space at a configurable base address. */
module Memory {
  import opened Types

  /** Capacity of the backing byte array, which is also the upper bound the
      device reports for its address space. */
  const MemorySize: Word := 0x7FFF

  datatype RamState = RamState(base: Word, data: seq<Byte>)

  /** A RAM device: its backing array always holds exactly `MemorySize` bytes. */
  type Ram = r: RamState | |r.data| == MemorySize
    witness RamState(0, seq(MemorySize, _ => 0))

  /** A zero-filled RAM configured at `base`. */
  function New(base: Word): (r: Ram)
    ensures r.base == base
    ensures forall i :: 0 <= i < |r.data| ==> r.data[i] == 0
  {
    RamState(base, seq(MemorySize, _ => 0))
  }

  /** The half-open range `[lower, upper)` the device claims on the bus. The
      upper bound is the array size, not `base + size`. */
  function AddressSpace(r: Ram): (Word, Word)
  {
    (r.base, MemorySize)
  }

  /** The byte stored at `address`. The array is indexed by the raw address,
      not by its offset from `base`, and an index past its end aborts. */
  function Read(r: Ram, address: Word): (v: Result<Byte>)
    ensures v.Ok? <==> address < MemorySize
    ensures v.Ok? ==> v.value == r.data[address]
    ensures v.Err? ==> v.fault == RamIndexOutOfBounds(address)
  {
    if address < MemorySize then Ok(r.data[address]) else Err(RamIndexOutOfBounds(address))
  }

  /** Stores `data` at `address`, again indexing the array by the raw address. */
  function Write(r: Ram, address: Word, data: Byte): (w: Result<Ram>)
    ensures w.Ok? <==> address < MemorySize
    ensures w.Err? ==> w.fault == RamIndexOutOfBounds(address)
    ensures w.Ok? ==> w.value.base == r.base && w.value.data[address] == data
    ensures w.Ok? ==> forall i :: 0 <= i < |r.data| && i != address ==> w.value.data[i] == r.data[i]
  {
    if address < MemorySize then Ok(r.(data := r.data[address := data]))
    else Err(RamIndexOutOfBounds(address))
  }

  /** The reported range has the array size as its upper bound whatever the
      base, so an address is claimed iff `base <= a < 0x7FFF`; a base of
      0x7FFF or more claims nothing. */
  lemma AddressSpaceIgnoresBase(r: Ram, a: Word)
    ensures AddressSpace(r).1 == MemorySize
    ensures (AddressSpace(r).0 <= a < AddressSpace(r).1) <==> (r.base <= a < MemorySize)
    ensures r.base >= MemorySize ==> !(AddressSpace(r).0 <= a < AddressSpace(r).1)
  {
  }

  /** A write is seen by a later read of the same address. */
  lemma ReadAfterWrite(r: Ram, a: Word, v: Byte)
    requires a < MemorySize
    ensures Write(r, a, v).Ok? && Read(Write(r, a, v).value, a) == Ok(v)
  {
  }

  /** A write leaves every other address, the base and the address space alone. */
  lemma WriteFrame(r: Ram, a: Word, v: Byte, b: Word)
    requires a < MemorySize && b != a
    ensures Write(r, a, v).Ok?
    ensures Read(Write(r, a, v).value, b) == Read(r, b)
    ensures AddressSpace(Write(r, a, v).value) == AddressSpace(r)
  {
  }
}
