/*
 * Bitwise AND and OR of unsigned values, defined bit by bit on integers,
 * with the facts the cartridge save code relies on.
 */
module Bits {
  import opened Bytes

  /** a & b */
  function BitAnd(a: nat, b: nat): nat
    decreases a
  {
    if a == 0 || b == 0 then 0 else (a % 2) * (b % 2) + 2 * BitAnd(a / 2, b / 2)
  }

  /** a | b */
  function BitOr(a: nat, b: nat): nat
    decreases a + b
  {
    if a == 0 then b
    else if b == 0 then a
    else (if a % 2 == 1 || b % 2 == 1 then 1 else 0) + 2 * BitOr(a / 2, b / 2)
  }

  lemma BitOfHalf(x: nat, k: nat)
    ensures Bit(x / 2, k) == Bit(x, k + 1)
  {
  }

  /** Bit k of a & b is set exactly when bit k is set in both. */
  lemma {:induction false} BitOfAnd(a: nat, b: nat, k: nat)
    ensures Bit(BitAnd(a, b), k) == Bit(a, k) * Bit(b, k)
  {
    if a == 0 || b == 0 {
      ZeroBits(k);
    } else {
      var x, r := BitAnd(a, b), BitAnd(a / 2, b / 2);
      assert x == (a % 2) * (b % 2) + 2 * r;
      AndDigit(a % 2, b % 2, r);
      if k > 0 {
        BitOfAnd(a / 2, b / 2, k - 1);
        BitOfHalf(x, k - 1);
        BitOfHalf(a, k - 1);
        BitOfHalf(b, k - 1);
      }
    }
  }

  /** The last bit and the rest of one step of BitAnd. */
  lemma AndDigit(p: nat, q: nat, r: nat)
    requires p < 2 && q < 2
    ensures (p * q + 2 * r) % 2 == p * q && (p * q + 2 * r) / 2 == r
  {
    assert p * q < 2;
  }

  lemma {:induction false} ZeroBits(k: nat)
    ensures Bit(0, k) == 0 && Shr(0, k) == 0
  {
    if k > 0 {
      ZeroBits(k - 1);
    }
  }

  /** Two values that agree on every bit are equal. */
  lemma {:induction false} BitsEqual(x: nat, y: nat)
    requires forall k: nat :: Bit(x, k) == Bit(y, k)
    ensures x == y
    decreases x + y
  {
    assert Bit(x, 0) == Bit(y, 0);
    if x != 0 || y != 0 {
      forall k: nat
        ensures Bit(x / 2, k) == Bit(y / 2, k)
      {
        BitOfHalf(x, k);
        BitOfHalf(y, k);
        assert Bit(x, k + 1) == Bit(y, k + 1);
      }
      BitsEqual(x / 2, y / 2);
    }
  }

  /**
   * `(n & s) == n` holds exactly when every bit set in n is also set in s:
   * programming n over s only clears bits.
   */
  lemma AndCoversIff(n: nat, s: nat)
    ensures BitAnd(n, s) == n <==> forall k: nat :: Bit(n, k) == 1 ==> Bit(s, k) == 1
  {
    if BitAnd(n, s) == n {
      forall k: nat | Bit(n, k) == 1
        ensures Bit(s, k) == 1
      {
        BitOfAnd(n, s, k);
      }
    }
    if forall k: nat :: Bit(n, k) == 1 ==> Bit(s, k) == 1 {
      forall k: nat
        ensures Bit(BitAnd(n, s), k) == Bit(n, k)
      {
        BitOfAnd(n, s, k);
      }
      BitsEqual(BitAnd(n, s), n);
    }
  }

  /** A value whose set bits lie below bit k ORed into a multiple of 2^k just adds. */
  lemma {:induction false} OrDisjoint(h: nat, l: nat, k: nat)
    requires l < Pow2(k)
    ensures BitOr(Pow2(k) * h, l) == Pow2(k) * h + l
  {
    if k > 0 {
      var a := Pow2(k) * h;
      assert a == 2 * (Pow2(k - 1) * h);
      if a != 0 && l != 0 {
        OrDisjoint(h, l / 2, k - 1);
        assert a / 2 == Pow2(k - 1) * h;
      }
    }
  }

  lemma {:induction false} OrComm(a: nat, b: nat)
    ensures BitOr(a, b) == BitOr(b, a)
    decreases a + b
  {
    if a != 0 && b != 0 {
      OrComm(a / 2, b / 2);
    }
  }

  /** The firmware's `lo | hi << k` with lo below 2^k: the two parts do not overlap. */
  lemma OrLowHigh(l: nat, h: nat, k: nat)
    requires l < Pow2(k)
    ensures BitOr(l, Pow2(k) * h) == Pow2(k) * h + l
  {
    OrDisjoint(h, l, k);
    OrComm(l, Pow2(k) * h);
  }

  /** a & a == a */
  lemma {:induction false} AndSelf(a: nat)
    ensures BitAnd(a, a) == a
  {
    if a != 0 {
      AndSelf(a / 2);
    }
  }

  /** OR of two k-bit values is a k-bit value. */
  lemma {:induction false} OrBound(a: nat, b: nat, k: nat)
    requires a < Pow2(k) && b < Pow2(k)
    ensures BitOr(a, b) < Pow2(k)
    decreases a + b
  {
    if a != 0 && b != 0 && k > 0 {
      OrBound(a / 2, b / 2, k - 1);
    }
  }
}
