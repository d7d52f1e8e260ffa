/** Bit-level arithmetic on unbounded naturals: the `&`, `|`, `^`, `!` and
    `<<` operators of fixed-width unsigned integers, written out so that the
    emulator's byte and word operations can be stated and proved with linear
    integer reasoning. Bits are numbered from 0, least significant first. */
module Bits {

  function Pow2(n: nat): (r: nat)
    ensures r >= 1
  {
    if n == 0 then 1 else 2 * Pow2(n - 1)
  }

  /** Bit `i` of `x` (0 or 1). */
  function Bit(x: nat, i: nat): (b: nat)
    ensures b < 2
  {
    if i == 0 then x % 2 else Bit(x / 2, i - 1)
  }

  datatype BitOp = AndOp | OrOp | XorOp

  /** The truth table of `op` on two single bits. */
  function ApplyBit(op: BitOp, a: nat, b: nat): (r: nat)
    requires a < 2 && b < 2
    ensures r < 2
  {
    match op
    case AndOp => if a == 1 && b == 1 then 1 else 0
    case OrOp => if a == 1 || b == 1 then 1 else 0
    case XorOp => if a != b then 1 else 0
  }

  /** `op` applied bit by bit to the low `n` bits of `x` and `y`: the
      `n`-bit unsigned `&`, `|` or `^`. */
  function Combine(op: BitOp, x: nat, y: nat, n: nat): (r: nat)
    ensures r < Pow2(n)
  {
    if n == 0 then 0
    else
      var rest := Combine(op, x / 2, y / 2, n - 1);
      ApplyBit(op, x % 2, y % 2) + 2 * rest
  }

  /** Shifting left by `k` within a `width`-bit register: the bits pushed past
      the top are lost. */
  function ShiftLeft(x: nat, k: nat, width: nat): (r: nat)
    ensures r < Pow2(width)
  {
    (x * Pow2(k)) % Pow2(width)
  }

  lemma Pow2Values()
    ensures Pow2(1) == 2 && Pow2(5) == 32 && Pow2(6) == 64 && Pow2(7) == 128
    ensures Pow2(8) == 0x100 && Pow2(16) == 0x1_0000
  {
  }

  /** Bit `i` of the combination is `op` of bit `i` of the operands: the
      recursive definition is the bitwise operator. */
  lemma {:induction false} BitOfCombine(op: BitOp, x: nat, y: nat, n: nat, i: nat)
    requires i < n
    ensures Bit(Combine(op, x, y, n), i) == ApplyBit(op, Bit(x, i), Bit(y, i))
  {
    var rest := Combine(op, x / 2, y / 2, n - 1);
    assert Combine(op, x, y, n) == ApplyBit(op, x % 2, y % 2) + 2 * rest;
    if i > 0 {
      BitOfCombine(op, x / 2, y / 2, n - 1, i - 1);
    }
  }

  /** A number below `2^n` has no bit set at position `n` or above. */
  lemma {:induction false} BitAboveWidth(x: nat, n: nat, i: nat)
    requires x < Pow2(n) && n <= i
    ensures Bit(x, i) == 0
  {
    if i > 0 {
      if n > 0 {
        BitAboveWidth(x / 2, n - 1, i - 1);
      } else {
        assert x == 0;
        BitAboveWidth(0, 0, i - 1);
      }
    }
  }

  /** Bit `n` of a number below `2^(n+1)` is its "sign" bit: set iff the
      number is at least `2^n`. */
  lemma {:induction false} TopBit(x: nat, n: nat)
    requires x < Pow2(n + 1)
    ensures Bit(x, n) == 1 <==> x >= Pow2(n)
  {
    if n > 0 {
      TopBit(x / 2, n - 1);
    }
  }

  /** The single-bit number `2^k` has exactly bit `k` set. */
  lemma {:induction false} BitOfPow2(k: nat, i: nat)
    ensures Bit(Pow2(k), i) == (if i == k then 1 else 0)
  {
    if i > 0 && k > 0 {
      BitOfPow2(k - 1, i - 1);
    } else if i > 0 {
      assert Bit(1, i) == Bit(0, i - 1);
      BitAboveWidth(0, 0, i - 1);
    }
  }

  lemma {:induction false} AndWithZero(x: nat, n: nat)
    ensures Combine(AndOp, x, 0, n) == 0
  {
    if n > 0 {
      AndWithZero(x / 2, n - 1);
    }
  }

  lemma {:induction false} OrWithZero(x: nat, n: nat)
    requires x < Pow2(n)
    ensures Combine(OrOp, x, 0, n) == x
  {
    if n > 0 {
      OrWithZero(x / 2, n - 1);
    }
  }

  /** AND with all ones is the identity. */
  lemma {:induction false} AndWithAllOnes(y: nat, n: nat)
    requires y < Pow2(n)
    ensures Combine(AndOp, Pow2(n) - 1, y, n) == y
  {
    if n > 0 {
      assert (Pow2(n) - 1) / 2 == Pow2(n - 1) - 1;
      AndWithAllOnes(y / 2, n - 1);
    }
  }

  /** AND with the single-bit mask `2^k` keeps bit `k` and clears every
      other bit. */
  lemma {:induction false} AndSingleBit(x: nat, k: nat, n: nat)
    requires k < n
    ensures Combine(AndOp, x, Pow2(k), n) == (if Bit(x, k) == 1 then Pow2(k) else 0)
  {
    if k == 0 {
      AndWithZero(x / 2, n - 1);
    } else {
      AndSingleBit(x / 2, k - 1, n - 1);
    }
  }

  /** OR with the single-bit mask `2^k` sets bit `k` and keeps every other
      bit: the value grows by `2^k` exactly when that bit was clear. */
  lemma {:induction false} OrSingleBit(x: nat, k: nat, n: nat)
    requires k < n && x < Pow2(n)
    ensures Combine(OrOp, x, Pow2(k), n) == (if Bit(x, k) == 1 then x else x + Pow2(k))
  {
    if k == 0 {
      OrWithZero(x / 2, n - 1);
    } else {
      OrSingleBit(x / 2, k - 1, n - 1);
    }
  }

  /** A number ANDed with its own complement is zero. */
  lemma {:induction false} AndComplement(x: nat, n: nat)
    requires x < Pow2(n)
    ensures Combine(AndOp, x, Pow2(n) - 1 - x, n) == 0
  {
    if n > 0 {
      var c := Pow2(n) - 1 - x;
      HalfComplement(x, n);
      AndComplement(x / 2, n - 1);
      assert Combine(AndOp, x, c, n) == ApplyBit(AndOp, x % 2, c % 2) + 2 * Combine(AndOp, x / 2, c / 2, n - 1);
    }
  }

  /** Halving the `n`-bit complement of `x` gives the `n - 1`-bit complement
      of half of `x`, and the low bits of the two are opposite. */
  lemma HalfComplement(x: nat, n: nat)
    requires 0 < n && x < Pow2(n)
    ensures Pow2(n) - 1 - x >= 0
    ensures (Pow2(n) - 1 - x) / 2 == Pow2(n - 1) - 1 - x / 2
    ensures (Pow2(n) - 1 - x) % 2 == 1 - x % 2
  {
    var h := Pow2(n - 1);
    assert Pow2(n) == 2 * h;
    assert 2 * h - 1 - x == 2 * (h - 1 - x / 2) + (1 - x % 2);
  }
}

/** The fixed-width operators the emulator uses on bytes, in terms of the
    bit-level definitions above. */
module ByteOps {
  import opened Types
  import opened Bits

  /** `x & y` on `u8`. */
  function And8(x: Byte, y: Byte): Byte {
    Pow2Values();
    Combine(AndOp, x, y, 8)
  }

  /** `x | y` on `u8`. */
  function Or8(x: Byte, y: Byte): Byte {
    Pow2Values();
    Combine(OrOp, x, y, 8)
  }

  /** `x ^ y` on `u8`. */
  function Xor8(x: Byte, y: Byte): Byte {
    Pow2Values();
    Combine(XorOp, x, y, 8)
  }

  /** `!x` on `u8`: every one of the eight bits flipped. */
  function Not8(x: Byte): Byte {
    255 - x
  }

  /** Bit `i` of `x & y`, `x | y` and `x ^ y` is the bitwise operator applied
      to bit `i` of `x` and of `y`. */
  lemma ByteBits(x: Byte, y: Byte, i: nat)
    requires i < 8
    ensures Bit(And8(x, y), i) == ApplyBit(AndOp, Bit(x, i), Bit(y, i))
    ensures Bit(Or8(x, y), i) == ApplyBit(OrOp, Bit(x, i), Bit(y, i))
    ensures Bit(Xor8(x, y), i) == ApplyBit(XorOp, Bit(x, i), Bit(y, i))
  {
    BitOfCombine(AndOp, x, y, 8, i);
    BitOfCombine(OrOp, x, y, 8, i);
    BitOfCombine(XorOp, x, y, 8, i);
  }

  lemma NotBits(x: Byte, i: nat)
    requires i < 8
    ensures Bit(Not8(x), i) == 1 - Bit(x, i)
  {
    Pow2Values();
    NotBit(x, 8, i);
  }

  lemma {:induction false} NotBit(x: nat, n: nat, i: nat)
    requires x < Pow2(n) && i < n
    ensures Bit(Pow2(n) - 1 - x, i) == 1 - Bit(x, i)
  {
    assert (Pow2(n) - 1 - x) / 2 == Pow2(n - 1) - 1 - x / 2;
    if i > 0 {
      NotBit(x / 2, n - 1, i - 1);
    }
  }

  /** `x & !x` is zero for every byte. */
  lemma AndNotSelf(x: Byte)
    ensures And8(x, Not8(x)) == 0
  {
    var complement := Not8(x);
    assert complement == 255 - x;
    assert And8(x, complement) == Combine(AndOp, x, complement, 8);
    Pow2Values();
    AndComplement(x, 8);
  }

  /** Testing the top bit with `x & 0x80 != 0` is `x >= 0x80`. */
  lemma {:induction false} SignBit(x: Byte)
    ensures And8(x, 0x80) != 0 <==> x >= 0x80
    ensures And8(x, 0x80) == (if x >= 0x80 then 0x80 else 0)
  {
    Pow2Values();
    AndSingleBit(x, 7, 8);
    TopBit(x, 7);
  }
}
