/*
 * The CRC-32 of src/n64cartinterface.c (si_crc32): the reflected IEEE 802.3
 * polynomial, a 256-entry table built on first use, initial register and
 * final exclusive or 0xFFFFFFFF.  The table-driven loop is proved equal to the
 * bitwise definition, one bit per step.  Registers are naturals below 2^32;
 * `^` is Xor, `>> k` is Shr, `& 1` and `& 0xFF` are `% 2` and `% 256`.
 */
module CartCrc {
  import opened Bytes

  /** Bitwise exclusive or of two naturals, the value of `a ^ b`. */
  function Xor(a: nat, b: nat): nat
    decreases a + b
  {
    if a == 0 && b == 0 then 0 else (a % 2 + b % 2) % 2 + 2 * Xor(a / 2, b / 2)
  }

  lemma XorHalf(a: nat, b: nat)
    ensures Xor(a, b) % 2 == (a % 2 + b % 2) % 2
    ensures Xor(a, b) / 2 == Xor(a / 2, b / 2)
  {
  }

  lemma XorParity(a: nat, b: nat)
    ensures Xor(a, b) % 2 == (a % 2 + b % 2) % 2
  {
  }

  lemma {:induction false} XorZero(a: nat)
    ensures Xor(a, 0) == a && Xor(0, a) == a
    decreases a
  {
    if a > 0 {
      XorZero(a / 2);
    }
  }

  lemma {:induction false} XorComm(a: nat, b: nat)
    ensures Xor(a, b) == Xor(b, a)
    decreases a + b
  {
    if a != 0 || b != 0 {
      XorComm(a / 2, b / 2);
    }
  }

  /** Two naturals with the same last bit and the same remaining bits are equal. */
  lemma SameBits(l: nat, r: nat)
    requires l % 2 == r % 2 && l / 2 == r / 2
    ensures l == r
  {
  }

  /** The last bit of a three-way sum does not depend on how the sum is grouped. */
  lemma BitSumAssoc(x: nat, y: nat, ab: nat, bc: nat, a: nat, b: nat, c: nat)
    requires ab % 2 == (a % 2 + b % 2) % 2 && bc % 2 == (b % 2 + c % 2) % 2
    requires x % 2 == (ab % 2 + c % 2) % 2 && y % 2 == (a % 2 + bc % 2) % 2
    ensures x % 2 == y % 2
  {
    var p, q, r := a % 2, b % 2, c % 2;
    assert p < 2 && q < 2 && r < 2;
  }

  lemma XorParityAssoc(a: nat, b: nat, c: nat)
    ensures Xor(Xor(a, b), c) % 2 == Xor(a, Xor(b, c)) % 2
  {
    var ab, bc := Xor(a, b), Xor(b, c);
    XorParity(a, b);
    XorParity(b, c);
    XorParity(ab, c);
    XorParity(a, bc);
    BitSumAssoc(Xor(ab, c), Xor(a, bc), ab, bc, a, b, c);
  }

  lemma {:induction false} XorAssoc(a: nat, b: nat, c: nat)
    ensures Xor(Xor(a, b), c) == Xor(a, Xor(b, c))
    decreases a + b + c
  {
    if a != 0 || b != 0 || c != 0 {
      XorHalf(a, b);
      XorHalf(b, c);
      XorHalf(Xor(a, b), c);
      XorHalf(a, Xor(b, c));
      XorAssoc(a / 2, b / 2, c / 2);
      XorParityAssoc(a, b, c);
      SameBits(Xor(Xor(a, b), c), Xor(a, Xor(b, c)));
    } else {
      XorZero(0);
    }
  }

  lemma {:induction false} XorSelf(a: nat)
    ensures Xor(a, a) == 0
    decreases a
  {
    if a > 0 {
      XorSelf(a / 2);
    }
  }

  lemma {:induction false} XorBound(a: nat, b: nat, k: nat)
    requires a < Pow2(k) && b < Pow2(k)
    ensures Xor(a, b) < Pow2(k)
    decreases k
  {
    if k > 0 && (a != 0 || b != 0) {
      XorBound(a / 2, b / 2, k - 1);
    } else if k == 0 {
      assert a == 0 && b == 0;
    }
  }

  lemma XorCancel(p: nat, a: nat, b: nat)
    ensures Xor(Xor(p, a), Xor(p, b)) == Xor(a, b)
  {
    XorAssoc(p, a, Xor(p, b));
    XorAssoc(a, p, b);
    XorComm(a, p);
    XorAssoc(p, a, b);
    XorAssoc(p, p, Xor(a, b));
    XorSelf(p);
    XorZero(Xor(a, b));
  }

  /** The reflected IEEE 802.3 polynomial, CRC32_POLY in the firmware's table loop. */
  const Poly: u32 := 0xEDB88320

  /** One bit of a bitwise CRC: shift right, folding the polynomial in when the low bit was set. */
  function Step(c: nat): nat
  {
    if c % 2 == 1 then Xor(Poly, c / 2) else c / 2
  }

  /** k bitwise CRC steps. */
  function Steps(c: nat, k: nat): nat
  {
    if k == 0 then c else Step(Steps(c, k - 1))
  }

  /** A bitwise CRC step is linear over exclusive or. */
  lemma StepLinear(x: nat, y: nat)
    ensures Step(Xor(x, y)) == Xor(Step(x), Step(y))
  {
    var hx, hy, z := x / 2, y / 2, Xor(x, y);
    XorHalf(x, y);
    assert z / 2 == Xor(hx, hy) && z % 2 == (x % 2 + y % 2) % 2;
    if x % 2 == 1 && y % 2 == 1 {
      assert Step(z) == Xor(hx, hy);
      XorCancel(Poly, hx, hy);
    } else if x % 2 == 1 {
      assert Step(z) == Xor(Poly, Xor(hx, hy)) && Step(y) == hy;
      XorAssoc(Poly, hx, hy);
    } else if y % 2 == 1 {
      assert Step(z) == Xor(Poly, Xor(hx, hy)) && Step(x) == hx;
      XorAssoc(hx, Poly, hy);
      XorComm(hx, Poly);
      XorAssoc(Poly, hx, hy);
    }
  }

  lemma {:induction false} StepsLinear(x: nat, y: nat, k: nat)
    ensures Steps(Xor(x, y), k) == Xor(Steps(x, k), Steps(y, k))
  {
    if k > 0 {
      StepsLinear(x, y, k - 1);
      StepLinear(Steps(x, k - 1), Steps(y, k - 1));
    }
  }

  /** Eight steps of a register whose low byte is clear only shift it right by a byte. */
  lemma StepsOfHighPart(m: nat)
    ensures Steps(256 * m, 8) == m
  {
    assert Steps(256 * m, 1) == 128 * m;
    assert Steps(256 * m, 2) == 64 * m;
    assert Steps(256 * m, 3) == 32 * m;
    assert Steps(256 * m, 4) == 16 * m;
    assert Steps(256 * m, 5) == 8 * m;
    assert Steps(256 * m, 6) == 4 * m;
    assert Steps(256 * m, 7) == 2 * m;
  }

  /** Bits below position k and bits from position k on never meet in an exclusive or. */
  lemma {:induction false} XorDisjoint(r: nat, m: nat, k: nat)
    requires r < Pow2(k)
    ensures Xor(r, Pow2(k) * m) == r + Pow2(k) * m
  {
    if k == 0 {
      XorZero(m);
    } else {
      var p, q := Pow2(k), Pow2(k - 1);
      assert p == 2 * q;
      HalfBelow(r, q, p, m);
      XorDisjoint(r / 2, m, k - 1);
      XorHalfEven(r, q * m);
    }
  }

  /** Below 2q, halving lands below q; and 2q * m is twice q * m. */
  lemma HalfBelow(r: nat, q: nat, p: nat, m: nat)
    requires p == 2 * q && r < p
    ensures r / 2 < q && p * m == 2 * (q * m)
  {
  }

  lemma XorHalfEven(r: nat, n: nat)
    requires Xor(r / 2, n) == r / 2 + n
    ensures Xor(r, 2 * n) == r + 2 * n
  {
    var b := 2 * n;
    var x := Xor(r, b);
    PlusEven(r, n, b);
    XorHalf(r, b);
    assert x / 2 == Xor(r / 2, n);
    SameBits(x, r + b);
  }

  /** Adding an even number b = 2n keeps the last bit and adds n to the rest. */
  lemma PlusEven(r: nat, n: nat, b: nat)
    requires b == 2 * n
    ensures b / 2 == n && (r % 2 + b % 2) % 2 == r % 2
    ensures (r + b) % 2 == r % 2 && (r + b) / 2 == r / 2 + n
  {
  }

  /** Shifting right by k bits ignores an operand below 2^k. */
  lemma {:induction false} XorShr(c: nat, b: nat, k: nat)
    requires b < Pow2(k)
    ensures Shr(Xor(c, b), k) == Shr(c, k)
  {
    if k == 0 {
      XorZero(c);
    } else {
      XorHalf(c, b);
      XorShr(c / 2, b / 2, k - 1);
    }
  }

  /** A register is its low byte plus 256 times the rest. */
  lemma ByteSplit(x: nat)
    ensures x == x % 256 + 256 * Shr(x, 8)
  {
    var x1 := x / 2;
    var x2 := x1 / 2;
    var x3 := x2 / 2;
    var x4 := x3 / 2;
    var x5 := x4 / 2;
    var x6 := x5 / 2;
    var x7 := x6 / 2;
    var x8 := x7 / 2;
    assert Shr(x, 8) == Shr(x1, 7) == Shr(x2, 6) == Shr(x3, 5) == Shr(x4, 4);
    assert Shr(x4, 4) == Shr(x5, 3) == Shr(x6, 2) == Shr(x7, 1) == x8;
  }

  /** Table entry n: eight bitwise steps of the byte n alone (the firmware's CrcTable[n]). */
  function Entry(n: nat): nat
  {
    Steps(n, 8)
  }

  /** One table lookup does the work of eight bitwise steps. */
  lemma TableStep(c: nat, b: u8)
    ensures Xor(Entry(Xor(c, b) % 256), Shr(c, 8)) == Steps(Xor(c, b), 8)
  {
    var x := Xor(c, b);
    var m := Shr(x, 8);
    ByteSplit(x);
    assert Pow2(8) == 256;
    XorDisjoint(x % 256, m, 8);
    StepsLinear(x % 256, 256 * m, 8);
    StepsOfHighPart(m);
    XorShr(c, b, 8);
  }

  lemma StepBound(c: nat)
    requires c < 0x1_0000_0000
    ensures Step(c) < 0x1_0000_0000
  {
    if c % 2 == 1 {
      Pow2Of32();
      XorBound(Poly, c / 2, 32);
    }
  }

  lemma {:induction false} StepsBound(c: nat, k: nat)
    requires c < 0x1_0000_0000
    ensures Steps(c, k) < 0x1_0000_0000
  {
    if k > 0 {
      StepsBound(c, k - 1);
      StepBound(Steps(c, k - 1));
    }
  }

  /** The CRC register after the bytes of data, computed one bit at a time (the reference definition). */
  function Register(data: seq<u8>): (c: u32)
  {
    if |data| == 0 then 0xFFFF_FFFF
    else
      var prev := Register(data[..|data| - 1]);
      Pow2Of32();
      XorBound(prev, data[|data| - 1], 32);
      StepsBound(Xor(prev, data[|data| - 1]), 8);
      Steps(Xor(prev, data[|data| - 1]), 8)
  }

  /** CRC-32 of data: the final register with all bits inverted. */
  function Crc32(data: seq<u8>): (r: u32)
  {
    Pow2Of32();
    XorBound(Register(data), 0xFFFF_FFFF, 32);
    Xor(Register(data), 0xFFFF_FFFF)
  }

  /** The CRC of no bytes is 0. */
  lemma Crc32Empty()
    ensures Crc32([]) == 0
  {
    XorSelf(0xFFFF_FFFF);
  }

  /** Appending one byte: fold it into the register, then eight bitwise steps. */
  lemma Crc32Append(data: seq<u8>, b: u8)
    ensures Xor(Crc32(data + [b]), 0xFFFF_FFFF) == Steps(Xor(Register(data), b), 8)
  {
    assert (data + [b])[..|data|] == data;
    XorAssoc(Register(data + [b]), 0xFFFF_FFFF, 0xFFFF_FFFF);
    XorSelf(0xFFFF_FFFF);
    XorZero(Register(data + [b]));
  }

  /** The firmware's CRC engine: CrcTable and TableBuilt. */
  class CrcEngine {
    var table: array<u32>
    var built: bool

    /** Once built, entry n of the table is eight bitwise steps of n. */
    ghost predicate Valid()
      reads this, table
    {
      table.Length == 256 &&
      (built ==> forall n :: 0 <= n < 256 ==> table[n] == Entry(n))
    }

    constructor()
      ensures Valid() && !built && fresh(table)
    {
      table := new u32[256];
      built := false;
    }

    /**
     * si_crc32: build the table on the first call, then fold the bytes in
     * one table lookup at a time.  The result is the bitwise CRC-32.
     */
    method SiCrc32(data: seq<u8>) returns (r: u32)
      requires Valid()
      modifies this, table
      ensures Valid() && built && table == old(table)
      ensures r == Crc32(data)
    {
      if !built {
        BuildTable();
        built := true;
      }

      var c: u32 := 0xFFFF_FFFF;
      var n := 0;
      while n < |data|
        invariant 0 <= n <= |data|
        invariant c == Register(data[..n])
        invariant Valid() && built && table == old(table)
      {
        var index := Xor(c, data[n]) % 256;
        TableStep(c, data[n]);
        assert data[..n + 1][..n] == data[..n];
        assert Register(data[..n + 1]) == Steps(Xor(c, data[n]), 8);
        assert table[index] == Entry(index);
        c := Xor(table[index], Shr(c, 8));
        n := n + 1;
      }
      assert data[..n] == data;
      assert Xor(c, 0xFFFF_FFFF) == Crc32(data);
      r := Xor(c, 0xFFFF_FFFF);
    }

    /** The table loop of si_crc32: entry n is the register after eight bitwise steps of n. */
    method BuildTable()
      requires table.Length == 256
      modifies table
      ensures forall n :: 0 <= n < 256 ==> table[n] == Entry(n)
    {
      var n := 0;
      while n < 256
        invariant 0 <= n <= 256
        invariant forall m :: 0 <= m < n ==> table[m] == Entry(m)
      {
        var c: u32 := n;
        var k := 0;
        while k < 8
          invariant 0 <= k <= 8
          invariant c == Steps(n, k)
          invariant forall m :: 0 <= m < n ==> table[m] == Entry(m)
          invariant k > 0 ==> table[n] == c
        {
          StepBound(c);
          if c % 2 == 1 {
            c := Xor(Poly, c / 2);
          } else {
            c := c / 2;
          }
          table[n] := c;
          k := k + 1;
        }
        n := n + 1;
      }
    }
  }
}
