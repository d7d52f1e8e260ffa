/** The address-space dispatcher: an ordered list of devices, each claiming a
    half-open address range, with every access routed to the first device,
    in registration order, whose range contains the address. */
module Bus {
  import opened Types
  import Memory

  /** The attached devices in registration order. RAM is the only
      implementation of the addressable-device contract, so a device is a
      `Memory.Ram`. */
  datatype Bus = Bus(devices: seq<Memory.Ram>)

  /** `d` claims `a` when `lower <= a < upper` for its reported range. */
  predicate Claims(d: Memory.Ram, a: Word) {
    var space := Memory.AddressSpace(d);
    space.0 <= a && space.1 > a
  }

  /** Device `i` is the one the scan stops at: it claims `a` and no earlier
      device does. */
  ghost predicate IsFirstMatch(devices: seq<Memory.Ram>, a: Word, i: int) {
    && 0 <= i < |devices|
    && Claims(devices[i], a)
    && forall j :: 0 <= j < i ==> !Claims(devices[j], a)
  }

  /** No attached device claims `a`. */
  ghost predicate Unclaimed(devices: seq<Memory.Ram>, a: Word) {
    forall j :: 0 <= j < |devices| ==> !Claims(devices[j], a)
  }

  /** The in-order scan over the devices. */
  function FirstMatch(devices: seq<Memory.Ram>, a: Word): (r: Option<nat>)
    ensures r.Some? ==> IsFirstMatch(devices, a, r.value)
    ensures r.None? <==> Unclaimed(devices, a)
  {
    if |devices| == 0 then None
    else if Claims(devices[0], a) then Some(0)
    else match FirstMatch(devices[1..], a)
      case None => None
      case Some(i) => Some(i + 1)
  }

  /** At most one device is the first match. */
  lemma FirstMatchUnique(devices: seq<Memory.Ram>, a: Word, i: int, k: int)
    requires IsFirstMatch(devices, a, i) && IsFirstMatch(devices, a, k)
    ensures i == k
  {
  }

  /** Reads the byte at `address` from the first device that claims it; when
      none does, from the first device regardless of its range. */
  function Read(bus: Bus, address: Word): (v: Result<Byte>)
    ensures |bus.devices| == 0 ==> v == Err(NoDevice)
    ensures forall i :: IsFirstMatch(bus.devices, address, i) ==>
              v.Ok? && v == Memory.Read(bus.devices[i], address)
    ensures |bus.devices| > 0 && Unclaimed(bus.devices, address) ==>
              v == Memory.Read(bus.devices[0], address)
  {
    if |bus.devices| == 0 then Err(NoDevice)
    else
      var device := match FirstMatch(bus.devices, address)
        case Some(i) => bus.devices[i]
        case None => bus.devices[0];
      Memory.Read(device, address)
  }

  /** Every device is a RAM, so a bus with at least one device answers every
      read below the RAM size, claimed or not, and faults with the RAM's index
      error on every read at or past it. */
  lemma ReadBelowSizeSucceeds(bus: Bus, a: Word)
    requires |bus.devices| > 0
    ensures Read(bus, a).Ok? <==> a < Memory.MemorySize
    ensures a >= Memory.MemorySize ==> Read(bus, a) == Err(RamIndexOutOfBounds(a))
  {
  }

  /** Writes `data` to the first device that claims `address`. When none
      does, nothing changes (the implementation only prints a diagnostic). */
  function Write(bus: Bus, address: Word, data: Byte): (r: Bus)
    ensures |r.devices| == |bus.devices|
    ensures forall i :: IsFirstMatch(bus.devices, address, i) ==>
              && r.devices[i].base == bus.devices[i].base
              && r.devices[i].data == bus.devices[i].data[address := data]
              && forall j :: 0 <= j < |bus.devices| && j != i ==> r.devices[j] == bus.devices[j]
    ensures Unclaimed(bus.devices, address) ==> r == bus
  {
    match FirstMatch(bus.devices, address)
    case None => bus
    case Some(i) => Bus(bus.devices[i := Memory.Write(bus.devices[i], address, data).value])
  }

  /** The bus the system builds: a single RAM device. */
  function New(memory: Memory.Ram): (r: Bus)
    ensures |r.devices| == 1 && r.devices[0] == memory
    ensures forall a :: Read(r, a) == Memory.Read(memory, a)
  {
    Bus([memory])
  }

  /** Writing through a single-device bus is writing to that device when it
      claims the address, and nothing otherwise. */
  lemma SingleDeviceWrite(memory: Memory.Ram, a: Word, v: Byte)
    ensures Claims(memory, a) ==> Write(New(memory), a, v) == New(Memory.Write(memory, a, v).value)
    ensures !Claims(memory, a) ==> Write(New(memory), a, v) == New(memory)
  {
    if Claims(memory, a) {
      assert IsFirstMatch(New(memory).devices, a, 0);
    } else {
      assert Unclaimed(New(memory).devices, a);
    }
  }

  /** With one RAM at base 0 (the configuration the system uses), a write is
      read back and every other address keeps its value. */
  lemma {:induction false} RoundTrip(memory: Memory.Ram, a: Word, v: Byte, b: Word)
    requires memory.base == 0 && a < Memory.MemorySize
    ensures Read(Write(New(memory), a, v), a) == Ok(v)
    ensures b != a ==> Read(Write(New(memory), a, v), b) == Read(New(memory), b)
  {
    SingleDeviceWrite(memory, a, v);
  }

  /** With one RAM at a base above `a`, a write to `a` is dropped, yet a read
      of `a` still reaches the RAM's array through the fallback. */
  lemma {:induction false} BelowBase(memory: Memory.Ram, a: Word, v: Byte)
    requires a < memory.base
    ensures Write(New(memory), a, v) == New(memory)
    ensures Read(New(memory), a) == Memory.Read(memory, a)
    ensures a < Memory.MemorySize ==> Read(New(memory), a) == Ok(memory.data[a])
  {
    SingleDeviceWrite(memory, a, v);
  }

  /** A device behind an earlier device that claims the same address never
      sees that address: writes leave it unchanged and replacing it does not
      change what is read. */
  lemma {:induction false} Shadowed(bus: Bus, i: nat, k: nat, a: Word, v: Byte, other: Memory.Ram)
    requires i < k < |bus.devices| && Claims(bus.devices[i], a)
    ensures Write(bus, a, v).devices[k] == bus.devices[k]
    ensures Read(Bus(bus.devices[k := other]), a) == Read(bus, a)
  {
    var first := FirstMatch(bus.devices, a);
    assert !Unclaimed(bus.devices, a);
    var f := first.value;
    assert f <= i;
    var shadowed := bus.devices[k := other];
    assert IsFirstMatch(shadowed, a, f);
  }
}
