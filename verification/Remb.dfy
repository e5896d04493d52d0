/**
 The bitrate field of a REMB message (section 2.2 of draft-alvestrand-rmcat-remb): a 6-bit exponent
 and an 18-bit mantissa in a 24-bit field in network byte order.
 */
module Remb {
  import opened Numbers
  import opened Serial

  const MANTISSA_MAX := 0x3FFFF
  const TWO64: int := 0x1_0000_0000_0000_0000

  /** Bitrates from here on do not fit: 0x3FFFF * 2^46. */
  const LIMIT := 0xFFFF_C000_0000_0000

  type uint24 = x: int | 0 <= x < 0x100_0000

  // ---------------------------------------------------------------- the exponent

  /** The bound `max` of the loop after `e` doublings in 64 bits. */
  function Bound(e: nat): uint64 {
    U64(MANTISSA_MAX * Pow2(e))
  }

  /** Where the loop of `setREMBBitRate` stops, from exponent `e` on. */
  function Exponent(b: uint64, e: nat := 0): (r: nat)
    requires e <= 64
    ensures e <= r <= 64
    ensures r < 64 ==> b < Bound(r)
    ensures forall i :: e <= i < r ==> b >= Bound(i)
    decreases 64 - e
  {
    if b >= Bound(e) && e < 64 then Exponent(b, e + 1) else e
  }

  method FindExponent(bitRate: uint64) returns (exp: nat)
    ensures exp == Exponent(bitRate)
  {
    hide U64;
    exp := 0;
    var max := MANTISSA_MAX;
    FirstBound();
    while bitRate >= max && exp < 64
      invariant exp <= 64 && max == Bound(exp)
      invariant Exponent(bitRate, exp) == Exponent(bitRate)
      decreases 64 - exp
    {
      NextBound(exp);
      exp := exp + 1;
      max := U64(max * 2);
    }
  }

  lemma FirstBound()
    ensures Bound(0) == MANTISSA_MAX
  {
  }

  lemma NextBound(e: nat)
    ensures Bound(e + 1) == U64(Bound(e) * 2)
  {
    var x := MANTISSA_MAX * Pow2(e);
    assert MANTISSA_MAX * Pow2(e + 1) == x * 2;
    DoubleCut(x);
  }

  lemma DoubleCut(x: nat)
    ensures U64(x * 2) == U64(U64(x) * 2)
  {
    var q := x / TWO64;
    assert x == q * TWO64 + U64(x);
    assert x * 2 == (2 * q) * TWO64 + U64(x) * 2;
    CutMultiple(2 * q, U64(x) * 2);
  }

  lemma {:induction false} CutMultiple(q: nat, y: nat)
    ensures U64(q * TWO64 + y) == U64(y)
  {
    if q > 0 {
      CutMultiple(q - 1, y);
      CutOne((q - 1) * TWO64 + y);
    }
  }

  lemma CutOne(y: nat)
    ensures U64(y + TWO64) == U64(y)
  {
  }

  lemma {:induction false} PowAdd(a: nat, b: nat)
    ensures Pow2(a + b) == Pow2(a) * Pow2(b)
  {
    if a > 0 {
      PowAdd(a - 1, b);
      Assoc(Pow2(a - 1), Pow2(b));
    }
  }

  lemma Assoc(x: nat, y: nat)
    ensures (2 * x) * y == 2 * (x * y)
  {
  }

  lemma {:induction false} PowGrows(a: nat, b: nat)
    requires a <= b
    ensures Pow2(a) <= Pow2(b)
  {
    if a < b {
      PowGrows(a, b - 1);
    }
  }

  lemma Powers()
    ensures Pow2(18) == 0x4_0000 && Pow2(32) == TWO32 && Pow2(46) == 0x4000_0000_0000 && Pow2(64) == TWO64
  {
    assert Pow2(2) == 4 && Pow2(6) == 0x40 && Pow2(8) == 0x100;
    PowAdd(8, 6);
    PowAdd(8, 8);
    PowAdd(16, 2);
    PowAdd(16, 16);
    PowAdd(32, 14);
    PowAdd(32, 32);
  }

  /** Up to exponent 46 the bound does not wrap. */
  lemma BoundExact(e: nat)
    requires e <= 46
    ensures Bound(e) == MANTISSA_MAX * Pow2(e) <= LIMIT
  {
    Powers();
    PowGrows(e, 46);
  }

  /** After that it falls back, towards 0. */
  lemma BoundWraps(e: nat)
    requires 46 <= e < 64
    ensures Bound(e) == TWO64 - Pow2(e) <= LIMIT
  {
    hide Pow2, U64;
    PowShift(e);
    PositivePow(e - 46);
    CutBelow(Pow2(e - 46), Pow2(e));
  }

  lemma PowShift(e: nat)
    requires 46 <= e < 64
    ensures 0x4_0000 * Pow2(e) == TWO64 * Pow2(e - 46)
    ensures 0x4000_0000_0000 <= Pow2(e) < TWO64
  {
    Powers();
    PowLess(e, 64);
    PowGrows(46, e);
    hide Pow2;
    PowAdd(18, e);
    PowAdd(64, e - 46);
  }

  lemma PowLess(a: nat, b: nat)
    requires a < b
    ensures Pow2(a) < Pow2(b)
  {
    PowGrows(a, b - 1);
  }

  lemma CutBelow(k: nat, p: nat)
    requires k >= 1 && 0 < p < TWO64
    ensures U64(TWO64 * k - p) == TWO64 - p
  {
    CutMultiple(k - 1, TWO64 - p);
    assert (k - 1) * TWO64 + (TWO64 - p) == TWO64 * k - p;
  }

  lemma PositivePow(e: nat)
    ensures Pow2(e) >= 1
  {
  }

  /** The loop finds an exponent of at most 46, the least one whose mantissa fits, exactly for bitrates
      below the limit; beyond it, it runs to 64, and the shift by 64 that follows is undefined. */
  lemma ExponentExact(b: uint64)
    ensures b < LIMIT ==>
              var e := Exponent(b);
              && e <= 46 && b < MANTISSA_MAX * Pow2(e)
              && (e > 0 ==> b >= MANTISSA_MAX * Pow2(e - 1))
    ensures b >= LIMIT ==> Exponent(b) == 64
  {
    hide Bound, Exponent;
    var e := Exponent(b);
    if b < LIMIT {
      if e > 46 {
        Powers();
        BoundExact(46);
      }
      BoundExact(e);
      if e > 0 {
        BoundExact(e - 1);
      }
    } else if e < 64 {
      if e <= 46 {
        BoundExact(e);
      } else {
        BoundWraps(e);
      }
      assert false;
    }
  }

  // ---------------------------------------------------------------- the field

  /** A shift to the right by `e` bits. */
  function Shifted(b: uint64, e: nat): nat {
    Quotient(b, Pow2(e));
    b / Pow2(e)
  }

  function Mantissa(b: uint64): nat
    requires b < LIMIT
  {
    Shifted(b, Exponent(b))
  }

  /** `htonl` and `ntohl` on a little-endian machine. */
  function Swap(x: uint32): uint32 {
    x % 0x100 * 0x100_0000 + x / 0x100 % 0x100 * 0x1_0000 + x / 0x1_0000 % 0x100 * 0x100 + x / 0x100_0000
  }

  function BrExp(brLength: uint24): nat {
    Swap(brLength) / 0x400_0000
  }

  function BrMantis(brLength: uint24): nat {
    Swap(brLength) / 0x100 % 0x4_0000
  }

  /** The bitrate that a field stands for. */
  function Meaning(brLength: uint24): nat {
    BrMantis(brLength) * Pow2(BrExp(brLength))
  }

  lemma SwapBytes(a: byte, b: byte, c: byte)
    ensures Swap((a as int) * 0x1_0000 + (b as int) * 0x100 + c)
         == (c as int) * 0x100_0000 + (b as int) * 0x1_0000 + (a as int) * 0x100
  {
    var line := (a as int) * 0x1_0000 + (b as int) * 0x100 + c;
    TwoDigits(c, (a as int) * 0x100 + b);
    TwoDigits(b, a);
    Quotients(line);
  }

  lemma SwapTwice(a: byte, b: byte, c: byte)
    ensures var line := (a as int) * 0x1_0000 + (b as int) * 0x100 + c;
            Swap(line) / 0x100 < 0x100_0000 && Swap(Swap(line) / 0x100) == line * 0x100
  {
    SwapBytes(a, b, c);
    SwapBytes(c, b, a);
    hide Swap;
    TwoDigits(0, (c as int) * 0x1_0000 + (b as int) * 0x100 + a);
  }

  /** The bytes that are stored are read back as the same line. */
  lemma FieldInverts(line: uint24)
    ensures Swap(line) / 0x100 < 0x100_0000 && Swap(Swap(line) / 0x100) == line * 0x100
  {
    var a, b, c := line / 0x1_0000, line / 0x100 % 0x100, line % 0x100;
    assert line == a * 0x1_0000 + b * 0x100 + c;
    SwapTwice(a, b, c);
  }

  lemma FieldParts(m: nat, e: nat)
    requires m < 0x4_0000 && e < 64
    ensures var line := m + e * 0x4_0000;
            line < 0x100_0000 && line * 0x100 / 0x400_0000 == e && line * 0x100 / 0x100 % 0x4_0000 == m
  {
  }

  /** What is written for bitrate `b`. */
  function Field(b: uint64): uint24
    requires b < LIMIT
  {
    ExponentExact(b);
    MantissaFits(b);
    FieldParts(Mantissa(b), Exponent(b));
    FieldInverts(Mantissa(b) + Exponent(b) * 0x4_0000);
    Swap(Mantissa(b) + Exponent(b) * 0x4_0000) / 0x100
  }

  lemma Quotient(b: nat, p: nat)
    requires p > 0
    ensures b / p * p <= b < b / p * p + p
    ensures b / p >= 0
  {
  }

  lemma Smaller(m: nat, k: nat, p: nat)
    requires p > 0 && m * p < k * p
    ensures m < k
  {
  }

  lemma MantissaFits(b: uint64)
    requires b < LIMIT
    ensures Mantissa(b) < MANTISSA_MAX
    ensures Mantissa(b) * Pow2(Exponent(b)) <= b < Mantissa(b) * Pow2(Exponent(b)) + Pow2(Exponent(b))
  {
    ExponentExact(b);
    hide Exponent;
    Quotient(b, Pow2(Exponent(b)));
    Smaller(Mantissa(b), MANTISSA_MAX, Pow2(Exponent(b)));
  }

  /** The field stands for the bitrate rounded down to its precision: exactly it below 0x3FFFF, and
      less than 2/262143 of it too small otherwise. */
  lemma RembPrecision(b: uint64)
    requires b < LIMIT
    ensures var v, e := Meaning(Field(b)), Exponent(b);
            && e <= 46 && BrExp(Field(b)) == e && BrMantis(Field(b)) == Shifted(b, e)
            && v <= b < v + Pow2(e)
            && (b < MANTISSA_MAX ==> v == b)
            && (b - v) * 262143 <= 2 * b
            && (b > 0 ==> (b - v) * 262143 < 2 * b)
  {
    ExponentExact(b);
    MantissaFits(b);
    FieldParts(Mantissa(b), Exponent(b));
    FieldInverts(Mantissa(b) + Exponent(b) * 0x4_0000);
    hide Exponent, Swap;
    var e := Exponent(b);
    if e == 0 {
      assert Pow2(0) == 1;
    } else {
      assert Pow2(e) == 2 * Pow2(e - 1);
      PositivePow(e - 1);
    }
  }

  /** For example, one million bits a second is 250000 * 2^2, in the bytes 0B D0 90. */
  lemma OneMillion()
    ensures Field(1000000) == 0x0B + 0xD0 * 0x100 + 0x90 * 0x1_0000
  {
    MillionExponent();
    hide Exponent;
    assert Pow2(2) == 4;
    assert Mantissa(1000000) == 250000;
    assert Swap(250000 + 2 * 0x4_0000) == 0x90D0_0B00;
  }

  lemma MillionExponent()
    ensures Exponent(1000000) == 2
  {
    ExponentExact(1000000);
    hide Exponent;
    var e := Exponent(1000000);
    assert Pow2(1) == 2 && Pow2(2) == 4;
    PowOrder(e, 1);
    if e > 0 {
      PowOrder(2, e - 1);
    }
  }

  lemma PowOrder(a: nat, b: nat)
    ensures a <= b ==> Pow2(a) <= Pow2(b)
  {
    if a <= b {
      PowGrows(a, b);
    }
  }

  /** The getter shifts a 32-bit word. It returns the meaning of the field exactly for bitrates below
      2^32, among those for which the shift is defined at all. */
  lemma GetterExact(b: uint64)
    requires b < LIMIT && Exponent(b) < 32
    ensures U32(BrMantis(Field(b)) * Pow2(BrExp(Field(b)))) == Meaning(Field(b)) <==> b < TWO32
  {
    RembPrecision(b);
    hide Exponent, Field, Swap, U32;
    if b >= TWO32 {
      LargeMeaning(b);
    }
    U32Fits(Meaning(Field(b)));
  }

  lemma LargeMeaning(b: uint64)
    requires TWO32 <= b < LIMIT && Exponent(b) < 32
    ensures Meaning(Field(b)) >= TWO32
  {
    RembPrecision(b);
    hide Exponent, Field, Swap;
    var e := Exponent(b);
    PowAdd(32 - e, e);
    Powers();
    AtLeastMultiple(b, Pow2(32 - e), Pow2(e));
  }

  lemma AtLeastMultiple(b: nat, k: nat, p: nat)
    requires p > 0 && b >= k * p
    ensures b / p * p >= k * p
  {
    Quotient(b, p);
    if b / p < k {
      LessByOne(b / p, k, p);
    }
  }

  lemma LessByOne(q: nat, k: nat, p: nat)
    requires q < k
    ensures q * p + p <= k * p
  {
    Product(q + 1, k, p);
  }

  /** Below 2^32 the exponent is small enough for the getter. */
  lemma SmallExponent(b: uint64)
    requires b < TWO32
    ensures Exponent(b) <= 15
  {
    ExponentExact(b);
    PowAdd(8, 7);
    assert Pow2(8) == 0x100 && Pow2(7) == 0x80;
    hide Exponent;
    if Exponent(b) > 15 {
      PowGrows(15, Exponent(b) - 1);
    }
  }

  lemma CutOff(x: nat)
    ensures (x - U32(x)) % TWO32 == 0
  {
    assert x == x / TWO32 * TWO32 + U32(x);
  }

  // ---------------------------------------------------------------- the class

  class RtcpHeader {
    var brLength: uint24

    constructor ()
      ensures brLength == 0
    {
      brLength := 0;
    }

    method SetRembBitRate(bitRate: uint64)
      requires bitRate < LIMIT
      modifies this
      ensures brLength == Field(bitRate)
    {
      hide Exponent, Swap, Shifted, Pow2, Bound;
      var exp := FindExponent(bitRate);
      ExponentExact(bitRate);
      MantissaFits(bitRate);
      var mantissa := Shifted(bitRate, exp);
      exp := exp % 0x40;
      mantissa := mantissa % 0x4_0000;
      var line: int := mantissa + exp * 0x4_0000;
      FieldParts(mantissa, exp);
      FieldInverts(line);
      brLength := Swap(line) / 0x100;
    }

    /** The shift of a 32-bit word is defined for exponents below 32. What the field stands for comes
        back if it fits the word, and otherwise too little by a multiple of 2^32. */
    method GetRembBitRate() returns (r: uint64)
      requires BrExp(brLength) < 32
      ensures r == Meaning(brLength) <==> Meaning(brLength) < TWO32
      ensures r < TWO32 && r <= Meaning(brLength) && (Meaning(brLength) - r) % TWO32 == 0
    {
      hide U32;
      var mantis, exp := BrMantis(brLength), BrExp(brLength);
      r := U32(mantis * Pow2(exp));
      hide BrMantis, BrExp, Pow2;
      U32Fits(Meaning(brLength));
      CutOff(Meaning(brLength));
    }
  }

  /** Through a header: what is set below 2^32 is got back up to the precision of the field. */
  method SetThenGet(header: RtcpHeader, b: uint64) returns (r: uint64)
    requires b < TWO32
    modifies header
    ensures r <= b < r + Pow2(Exponent(b)) && (b < MANTISSA_MAX ==> r == b)
  {
    hide Exponent, Field, Swap;
    SmallExponent(b);
    RembPrecision(b);
    GetterExact(b);
    header.SetRembBitRate(b);
    r := header.GetRembBitRate();
  }
}
