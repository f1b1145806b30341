/*
 * Fixed-width integers of the firmware (uint8_t, uint16_t, uint32_t) as
 * bounded integers, with the shift and byte-order helpers the other modules
 * share.  Wrap-around of uint32_t arithmetic is written out with Wrap32.
 */
module Bytes {

  type u8 = x: int | 0 <= x < 0x100
  type u16 = x: int | 0 <= x < 0x1_0000
  type u32 = x: int | 0 <= x < 0x1_0000_0000

  /** 2 to the power k, the value of `1u << k`. */
  function Pow2(k: nat): (r: nat)
    ensures r >= 1
  {
    if k == 0 then 1 else 2 * Pow2(k - 1)
  }

  /** x shifted right by k bits, the value of `x >> k`. */
  function Shr(x: nat, k: nat): nat
  {
    if k == 0 then x else Shr(x / 2, k - 1)
  }

  /** Bit k of x, as 0 or 1. */
  function Bit(x: nat, k: nat): (r: nat)
    ensures r <= 1
  {
    Shr(x, k) % 2
  }

  /** Reduction modulo 2^32: the result of a uint32_t computation. */
  function Wrap32(x: int): (r: u32)
    ensures x >= 0 && x < 0x1_0000_0000 ==> r == x
  {
    x % 0x1_0000_0000
  }

  /** Low byte of a 16-bit word. */
  function Lo(w: u16): u8 { w % 0x100 }

  /** High byte of a 16-bit word. */
  function Hi(w: u16): u8 { w / 0x100 }

  /** The 16-bit word whose little-endian bytes are lo, hi. */
  function Word(lo: u8, hi: u8): (w: u16)
    ensures Lo(w) == lo && Hi(w) == hi
  {
    lo + 0x100 * hi
  }

  /** The four little-endian bytes of a 32-bit value (the firmware's lsb_word, and memcpy of a uint32_t). */
  function LeBytes32(x: u32): (r: seq<u8>)
    ensures |r| == 4
    ensures r[0] as int + 0x100 * r[1] as int + 0x1_0000 * r[2] as int + 0x100_0000 * r[3] as int == x
  {
    var q1 := x / 0x100;
    var q2 := q1 / 0x100;
    [x % 0x100, q1 % 0x100, q2 % 0x100, q2 / 0x100]
  }

  /** The two little-endian bytes of a 16-bit value (the firmware's lsb_hword). */
  function LeBytes16(x: u16): (r: seq<u8>)
    ensures |r| == 2 && Word(r[0], r[1]) == x
  {
    [Lo(x), Hi(x)]
  }

  /** Shifting one bit further halves the shifted value. */
  lemma {:induction false} ShrSucc(x: nat, k: nat)
    ensures Shr(x, k + 1) == Shr(x, k) / 2
  {
    if k > 0 {
      ShrSucc(x / 2, k - 1);
    }
  }

  /** Shifting a value below 2^k right by k bits leaves nothing. */
  lemma {:induction false} ShrBelow(x: nat, k: nat)
    requires x < Pow2(k)
    ensures Shr(x, k) == 0
  {
    if k > 0 {
      ShrBelow(x / 2, k - 1);
    }
  }

  lemma Pow2Add(a: nat, b: nat)
    ensures Pow2(a + b) == Pow2(a) * Pow2(b)
    decreases a
  {
    if a > 0 {
      Pow2Add(a - 1, b);
    }
  }

  lemma Pow2Of32()
    ensures Pow2(32) == 0x1_0000_0000
  {
    assert Pow2(8) == 256;
    Pow2Add(8, 8);
    Pow2Add(16, 16);
  }

  /** Reducing an intermediate uint32_t result does not change the final sum. */
  lemma WrapAdd(x: int, y: int)
    ensures Wrap32(Wrap32(x) + y) == Wrap32(x + y)
  {
    var m := 0x1_0000_0000;
    var q := x / m;
    assert x == q * m + x % m;
    assert x + y == q * m + (x % m + y);
    ModShift(x % m + y, q);
  }

  lemma ModShift(z: int, q: int)
    ensures (q * 0x1_0000_0000 + z) % 0x1_0000_0000 == z % 0x1_0000_0000
  {
  }
}
