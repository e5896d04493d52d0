/** Machine words, and the serial arithmetic that KCP builds its sequence numbers and clock on. */
module Serial {

  const TWO31: int := 0x8000_0000
  const TWO32: int := 0x1_0000_0000

  type byte = x: int | 0 <= x < 0x100
  type uint16 = x: int | 0 <= x < 0x1_0000
  type uint32 = x: int | 0 <= x < 0x1_0000_0000
  type uint64 = x: int | 0 <= x < 0x1_0000_0000_0000_0000

  /** A value cut to 16 bits. */
  function U16(x: int): uint16 {
    x % 0x1_0000
  }

  /** A value cut to 32 bits. */
  function U32(x: int): uint32 {
    x % 0x1_0000_0000
  }

  /** A value cut to 64 bits. */
  function U64(x: int): uint64 {
    x % 0x1_0000_0000_0000_0000
  }

  /** A value cut to 32 bits and read as two's complement. */
  function I32(x: int): int {
    var u := U32(x);
    if u < 0x8000_0000 then u else u - 0x1_0000_0000
  }

  /** `_itimediff`: how far `later` is ahead of `earlier`, as a signed 32-bit number. */
  function Diff(later: uint32, earlier: uint32): int {
    I32(later - earlier)
  }

  /** How many increments lead from `base` to `x`. */
  function Dist(base: uint32, x: uint32): nat {
    U32(x - base)
  }

  /** The only number in [base, base + 2^32) whose low 32 bits are `sn`. */
  function Unwrap(base: int, sn: uint32): int {
    base + U32(sn - base)
  }

  lemma UnwrapInverts(base: int, k: int)
    requires base <= k < base + TWO32
    ensures Unwrap(base, U32(k)) == k
  {
  }

  lemma UnwrapWraps(base: int, sn: uint32)
    ensures base <= Unwrap(base, sn) < base + TWO32
    ensures U32(Unwrap(base, sn)) == sn
  {
  }

  /** Numbers less than 2^31 apart are compared correctly through their low 32 bits. */
  lemma DiffOfIndices(a: int, b: int)
    requires -TWO31 <= a - b < TWO31
    ensures Diff(U32(a), U32(b)) == a - b
  {
  }

  lemma U32Shift(a: int, b: int)
    ensures U32(U32(a) + b) == U32(a + b)
  {
  }

  /** Cutting changes nothing exactly for numbers that fit. */
  lemma U32Fits(x: nat)
    ensures U32(x) <= x && (U32(x) == x <==> x < TWO32)
  {
  }

  lemma U32Sub(a: int, b: int)
    ensures U32(a - U32(b)) == U32(a - b)
  {
  }

  lemma DiffSelf(t: uint32)
    ensures Diff(t, t) == 0
  {
  }

  /** The lowest byte of a number and the rest of it. */
  lemma TwoDigits(lo: byte, hi: nat)
    ensures (lo + hi * 0x100) % 0x100 == lo && (lo + hi * 0x100) / 0x100 == hi
  {
  }

  lemma Quotients(l: nat)
    ensures l / 0x1_0000 == l / 0x100 / 0x100 && l / 0x100_0000 == l / 0x100 / 0x100 / 0x100
  {
  }
}
