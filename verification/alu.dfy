/** The arithmetic and flag logic of the instructions, on bytes: what ADC,
    AND and ASL compute from the accumulator, the operand and the status, in
    the order the source applies its `set_flag` calls. */
module Alu {
  import opened Types
  import opened Bits
  import opened ByteOps
  import opened Status

  /** The arithmetic of ADC: the accumulator plus the operand plus the carry
      bit, as a byte, with the carry out of bit 7. */
  function AddWithCarry(accumulator: Byte, operand: Byte, status: Byte): (r: (Byte, bool))
    ensures r.0 + (if r.1 then 0x100 else 0) == accumulator + operand + CarryIn(status)
  {
    var sum := accumulator + operand + CarryIn(status);
    (sum % 0x100, sum / 0x100 >= 0x01)
  }

  /** The flag updates of ADC, in the order the source makes them: carry-out,
      an overflow test that can never hold, zero, and bit 7 of the result.
      Since `set_flag(_, false)` keeps only its own bit, the status that
      results is 0x40 when bit 7 of the result is set and 0 otherwise,
      whatever the status before. */
  function AdcStatus(status: Byte, accumulator: Byte, result: Byte, carryOut: bool): (s: Byte)
    ensures s == (if result >= 0x80 then 0x40 else 0)
  {
    var mixed := Xor8(accumulator, result);
    var overflow := And8(mixed, Not8(mixed)) == 0x01;
    var negative := And8(result, 0x80) != 0;
    AdcCollapse(status, mixed, result, carryOut);
    SetFlags(status, [(Carry, carryOut), (Overflow, overflow), (Zero, result == 0x00), (Negative, negative)])
  }

  lemma AdcCollapse(status: Byte, mixed: Byte, result: Byte, carryOut: bool)
    ensures SetFlags(status, [(Carry, carryOut), (Overflow, And8(mixed, Not8(mixed)) == 0x01),
                              (Zero, result == 0x00), (Negative, And8(result, 0x80) != 0)])
            == (if result >= 0x80 then 0x40 else 0)
  {
    AndNotSelf(mixed);
    SignBit(result);
    SetFlagsFour(status, (Carry, carryOut), (Overflow, false), (Zero, result == 0x00), (Negative, result >= 0x80));
    AdcFlags(SetFlag(status, Carry, carryOut), result);
  }

  /** A byte and a carry that add up to `total` are `total` modulo 256. */
  lemma LowByte(low: Byte, carry: bool, total: nat)
    requires low + (if carry then 0x100 else 0) == total
    ensures low == total % 0x100
  {
  }

  /** `status & 0x01`, the carry bit as a number. */
  function CarryIn(status: Byte): (c: nat)
    ensures c == (if GetFlag(status, Carry) then 1 else 0)
  {
    Pow2Values();
    AndSingleBit(status, 0, 8);
    And8(status, 0x01)
  }

  /** Whatever the status after the carry update, clearing Overflow leaves
      0 or 0x20, and the Zero and Negative updates then leave 0x40 or 0. */
  lemma AdcFlags(s1: Byte, result: Byte)
    ensures var s2 := SetFlag(s1, Overflow, false);
            var s3 := SetFlag(s2, Zero, result == 0);
            SetFlag(s3, Negative, result >= 0x80) == (if result >= 0x80 then 0x40 else 0)
  {
    NoZeroAfterClear(s1);
    ZeroThenNegative(SetFlag(s1, Overflow, false), result);
  }

  /** From a status with Zero clear and below 0x3E, the Zero and Negative
      updates of ADC leave 0x40 or 0 by bit 7 of the result. */
  lemma ZeroThenNegative(s2: Byte, result: Byte)
    requires s2 < 0x3E && !GetFlag(s2, Zero)
    ensures SetFlag(SetFlag(s2, Zero, result == 0), Negative, result >= 0x80)
            == (if result >= 0x80 then 0x40 else 0)
  {
    var s3 := SetFlag(s2, Zero, result == 0);
    ZeroUpdate(s2, result == 0);
    NegativeUpdate(s3, result >= 0x80);
    if result >= 0x80 {
      assert s3 == 0;
    }
  }

  /** With Zero clear and room below Negative's mask, the Zero update adds
      its mask or leaves 0, and either way the status stays below Negative's
      mask. */
  lemma ZeroUpdate(s: Byte, on: bool)
    requires s < 0x3E && !GetFlag(s, Zero)
    ensures SetFlag(s, Zero, on) == (if on then s + 0x02 else 0)
    ensures SetFlag(s, Zero, on) < 0x40
  {
    MaskValue(Zero);
  }

  /** Below Negative's mask, the Negative update adds the mask or leaves 0. */
  lemma NegativeUpdate(s: Byte, on: bool)
    requires s < 0x40
    ensures SetFlag(s, Negative, on) == (if on then s + 0x40 else 0)
  {
    MaskValue(Negative);
    FlagAboveValue(s, Negative);
  }

  /** After the clearing `set_flag` of Overflow the status is 0 or 0x20, and
      so has Zero clear. */
  lemma NoZeroAfterClear(s1: Byte)
    ensures var s2 := SetFlag(s1, Overflow, false);
            (s2 == 0 || s2 == 0x20) && s2 < 0x3E && !GetFlag(s2, Zero)
  {
    var s2 := SetFlag(s1, Overflow, false);
    if s2 == 0 {
      FlagAboveValue(0, Zero);
    } else {
      FlagOfMask(Overflow, Zero);
    }
  }

  /** The overflow test ADC makes, `(a ^ r) & !(a ^ r) == 0x01`, can never
      hold: a byte ANDed with its own complement is zero. */
  lemma OverflowTestNeverHolds(accumulator: Byte, result: Byte)
    ensures And8(Xor8(accumulator, result), Not8(Xor8(accumulator, result))) != 0x01
  {
    AndNotSelf(Xor8(accumulator, result));
  }

  /** Two's-complement overflow of an 8-bit addition, the condition the
      6502's V flag reports: both addends have one sign and the sum the
      other. */
  predicate SignedOverflow(a: Byte, m: Byte, sum: Byte) {
    (a >= 0x80) == (m >= 0x80) && (sum >= 0x80) != (a >= 0x80)
  }

  /** The flag updates of AND: Zero from a zero result, then Negative from
      bit 7. A zero result sets Zero and then the clearing update of Negative
      keeps only bit 6, so the status is 0x40 or 0 according to the old
      Negative flag and the Zero flag just set is lost; a result with bit 7
      set keeps the old Zero bit beside Negative; any other result leaves
      0. */
  function AndStatus(status: Byte, result: Byte): (s: Byte)
    ensures s == (if result == 0 then (if GetFlag(status, Negative) then 0x40 else 0)
                  else if result >= 0x80 then 0x40 + (if GetFlag(status, Zero) then 0x02 else 0)
                  else 0)
  {
    AndCollapse(status, result);
    SetFlags(status, [(Zero, result == 0x00), (Negative, And8(result, 0x80) != 0)])
  }

  lemma AndCollapse(status: Byte, result: Byte)
    ensures SetFlags(status, [(Zero, result == 0x00), (Negative, And8(result, 0x80) != 0)])
            == (if result == 0 then (if GetFlag(status, Negative) then 0x40 else 0)
                else if result >= 0x80 then 0x40 + (if GetFlag(status, Zero) then 0x02 else 0)
                else 0)
  {
    SignBit(result);
    SetFlagsTwo(status, (Zero, result == 0x00), (Negative, result >= 0x80));
    var s1 := SetFlag(status, Zero, result == 0x00);
    if result == 0 {
      SetFlagBits(status, Zero, true, 6);
    } else {
      MaskValue(Zero);
      assert s1 <= 0x02;
      FlagAboveValue(s1, Negative);
    }
  }

  /** ASL's arithmetic: the operand shifted left one place within the byte,
      and the carry `(v & 0x80) >> 7 == 1` taken from its bit 7. Together
      they hold the doubled operand. */
  function ShiftOut(value: Byte): (r: (Byte, bool))
    ensures r.0 + (if r.1 then 0x100 else 0) == 2 * value
  {
    Pow2Values();
    SignBit(value);
    (ShiftLeft(value, 1, 8), And8(value, 0x80) / 0x80 == 0x01)
  }
}
