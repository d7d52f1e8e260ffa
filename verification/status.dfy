/** The processor status byte: seven named flags, each a single bit of the
    byte, read with `&` and written with `|` or `&` against the flag's mask. */
module Status {
  import opened Types
  import opened Bits
  import opened ByteOps

  datatype Flag = Carry | Zero | InterruptDisable | DecimalMode | BreakCommand | Overflow | Negative

  /** The bit a flag occupies, counted from the least significant. Negative
      sits at bit 6 and no flag uses bit 7. */
  function Position(f: Flag): (k: nat)
    ensures k < 7
  {
    match f
    case Carry => 0
    case Zero => 1
    case InterruptDisable => 2
    case DecimalMode => 3
    case BreakCommand => 4
    case Overflow => 5
    case Negative => 6
  }

  /** The mask each flag is declared with. */
  function Mask(f: Flag): (m: Byte)
    ensures m == Pow2(Position(f))
  {
    Pow2Values();
    match f
    case Carry => 0x01
    case Zero => 0x02
    case InterruptDisable => 0x04
    case DecimalMode => 0x08
    case BreakCommand => 0x10
    case Overflow => 0x20
    case Negative => 0x40
  }

  /** Distinct flags have distinct masks, and no mask reaches bit 7. */
  lemma MasksDistinct(f: Flag, g: Flag)
    ensures f != g ==> Mask(f) != Mask(g)
    ensures Mask(f) < 0x80
  {
  }

  /** The flag is set iff `status & mask` is non-zero. */
  function GetFlag(status: Byte, f: Flag): (b: bool)
    ensures b <==> Bit(status, Position(f)) == 1
  {
    AndSingleBit(status, Position(f), 8);
    And8(status, Mask(f)) != 0
  }

  /** The mask values of the repository's `Flags` enum. */
  lemma MaskValue(f: Flag)
    ensures f == Carry ==> Mask(f) == 0x01
    ensures f == Zero ==> Mask(f) == 0x02
    ensures f == Overflow ==> Mask(f) == 0x20
    ensures f == Negative ==> Mask(f) == 0x40
  {
  }

  /** A status value below a flag's mask cannot have that flag set. */
  lemma FlagAboveValue(status: Byte, f: Flag)
    requires status < Mask(f)
    ensures !GetFlag(status, f)
  {
    BitAboveWidth(status, Position(f), Position(f));
  }

  /** A flag's mask, read as a status byte, has that flag set and no other. */
  lemma FlagOfMask(g: Flag, f: Flag)
    ensures GetFlag(Mask(g), f) <==> f == g
  {
    BitOfPow2(Position(g), Position(f));
  }

  /** `set_flag`: ORs the mask in when `on`, and otherwise ANDs with the mask
      itself rather than its complement, so clearing a flag keeps that flag's
      bit and zeroes all the others. */
  function SetFlag(status: Byte, f: Flag, on: bool): (r: Byte)
    ensures on ==> r == (if GetFlag(status, f) then status else status + Mask(f))
    ensures !on ==> r == (if GetFlag(status, f) then Mask(f) else 0)
  {
    Pow2Values();
    AndSingleBit(status, Position(f), 8);
    OrSingleBit(status, Position(f), 8);
    if on then Or8(status, Mask(f)) else And8(status, Mask(f))
  }

  /** A run of `set_flag` calls, applied in order. */
  function SetFlags(status: Byte, updates: seq<(Flag, bool)>): Byte
    decreases |updates|
  {
    if |updates| == 0 then status
    else SetFlags(SetFlag(status, updates[0].0, updates[0].1), updates[1..])
  }

  /** The first update of a run, taken off the front. */
  lemma SetFlagsStep(status: Byte, updates: seq<(Flag, bool)>)
    requires |updates| > 0
    ensures SetFlags(status, updates) == SetFlags(SetFlag(status, updates[0].0, updates[0].1), updates[1..])
  {
  }

  /** A run of one update. */
  lemma SetFlagsOne(status: Byte, a: (Flag, bool))
    ensures SetFlags(status, [a]) == SetFlag(status, a.0, a.1)
  {
    SetFlagsStep(status, [a]);
    assert [a][1..] == [];
  }

  /** Two updates in a row, spelled out. */
  lemma SetFlagsTwo(status: Byte, a: (Flag, bool), b: (Flag, bool))
    ensures SetFlags(status, [a, b]) == SetFlag(SetFlag(status, a.0, a.1), b.0, b.1)
  {
    SetFlagsStep(status, [a, b]);
    assert [a, b][1..] == [b];
    SetFlagsOne(SetFlag(status, a.0, a.1), b);
  }

  /** Four updates in a row, spelled out. */
  lemma SetFlagsFour(status: Byte, a: (Flag, bool), b: (Flag, bool), c: (Flag, bool), d: (Flag, bool))
    ensures SetFlags(status, [a, b, c, d])
            == SetFlag(SetFlag(SetFlag(SetFlag(status, a.0, a.1), b.0, b.1), c.0, c.1), d.0, d.1)
  {
    var s1 := SetFlag(status, a.0, a.1);
    SetFlagsStep(status, [a, b, c, d]);
    assert [a, b, c, d][1..] == [b, c, d];
    SetFlagsStep(s1, [b, c, d]);
    assert [b, c, d][1..] == [c, d];
    SetFlagsTwo(SetFlag(s1, b.0, b.1), c, d);
  }

  /** Bit by bit: setting a flag turns its bit on and keeps every other bit;
      "clearing" it keeps its bit as it was and turns every other bit off. */
  lemma SetFlagBits(status: Byte, f: Flag, on: bool, i: nat)
    requires i < 8
    ensures on ==> Bit(SetFlag(status, f, on), i) == (if i == Position(f) then 1 else Bit(status, i))
    ensures !on ==> Bit(SetFlag(status, f, on), i) == (if i == Position(f) then Bit(status, i) else 0)
  {
    BitOfPow2(Position(f), i);
    ByteBits(status, Mask(f), i);
    if on {
      assert SetFlag(status, f, on) == Or8(status, Mask(f));
    } else {
      assert SetFlag(status, f, on) == And8(status, Mask(f));
    }
  }

  /** The evident intent of clearing: AND with the complement of the mask. */
  function ClearFlag(status: Byte, f: Flag): (r: Byte)
    ensures forall i :: 0 <= i < 8 ==> Bit(r, i) == (if i == Position(f) then 0 else Bit(status, i))
  {
    var r := And8(status, Not8(Mask(f)));
    forall i | 0 <= i < 8
      ensures Bit(r, i) == (if i == Position(f) then 0 else Bit(status, i))
    {
      BitOfPow2(Position(f), i);
      ByteBits(status, Not8(Mask(f)), i);
      NotBits(Mask(f), i);
    }
    r
  }

  /** Clearing Carry as written, with every bit set, leaves only Carry set. */
  lemma ClearAsWritten()
    ensures SetFlag(0xFF, Carry, false) == 0x01
  {
    assert Bit(0xFF, Position(Carry)) == 1;
    assert GetFlag(0xFF, Carry);
  }

  /** The intended clear of Carry, with every bit set, leaves every bit but
      Carry, where the clear as written leaves Carry alone. */
  lemma ClearAsIntended()
    ensures ClearFlag(0xFF, Carry) == 0xFE
  {
    var complement := Not8(Mask(Carry));
    assert complement == 0xFE;
    assert Combine(AndOp, 0xFF, complement, 8) == 0xFE by {
      Pow2Values();
      AndWithAllOnes(complement, 8);
    }
  }
}
