/*
 * The Joybus wire encoder of src/joybus.c (convertToPio).
 *
 * Every command byte becomes eight bit pairs, most significant data bit
 * first.  Pair p of a 32-bit PIO slot occupies bit 2p+1 (the timing marker,
 * always 1) and bit 2p (the data bit), so a slot is a base-4 number whose
 * digits are the pairs: 2 for a data 0, 3 for a data 1, 0 for an unused pair.
 * The even byte of a slot fills pairs 0..7, the odd byte pairs 8..15.  The
 * stop marker 0b11 is the pair right after the last data pair.
 */
module JoybusCodec {
  import opened Bytes

  /** Data bit j (0 = most significant) of byte b: the value of `!!(b & (0x80u >> j))`. */
  function DataBit(b: u8, j: nat): (r: nat)
    requires j < 8
    ensures r <= 1
  {
    Bit(b, 7 - j)
  }

  /**
   * Pair g of the whole command (g = 8 * byte + bit) once the first t pairs
   * have been added; `ended` says whether the stop marker follows them.
   */
  function PairDigit(cmd: seq<u8>, t: nat, ended: bool, g: nat): (d: nat)
    requires t <= 8 * |cmd|
    ensures d <= 3
  {
    if g < t then 2 + DataBit(cmd[g / 8], g % 8)
    else if ended && g == t then 3
    else 0
  }

  /** The sixteen pairs of slot s, lowest position first. */
  function SlotPairs(cmd: seq<u8>, t: nat, ended: bool, s: nat): (ds: seq<nat>)
    requires t <= 8 * |cmd|
    ensures |ds| == 16
    ensures forall q :: 0 <= q < 16 ==> ds[q] == PairDigit(cmd, t, ended, 16 * s + q)
  {
    seq<nat>(16, q requires 0 <= q < 16 => PairDigit(cmd, t, ended, 16 * s + q))
  }

  /** Slot s once the first t pairs (and the stop marker, if ended) have been added. */
  function Slot(cmd: seq<u8>, t: nat, ended: bool, s: nat): u32
    requires t <= 8 * |cmd|
  {
    SlotBound(cmd, t, ended, s);
    Base4(SlotPairs(cmd, t, ended, s))
  }

  /** A sequence of base-4 digits as a number, lowest digit first. */
  function Base4(ds: seq<nat>): nat
  {
    if |ds| == 0 then 0 else ds[0] + 4 * Base4(ds[1..])
  }

  /** Digit p (bits 2p+1 and 2p) of x written in base 4. */
  function DigitOf(x: nat, p: nat): (d: nat)
    ensures d <= 3
  {
    if p == 0 then x % 4 else DigitOf(x / 4, p - 1)
  }

  /** Reads a byte back from the data bits of the eight pairs starting at position h of a slot. */
  function DecodeByte(v: nat, h: nat): nat
  {
    DecodeBits(v, h, 8)
  }

  /** The first n data bits (most significant first) of the byte at position h. */
  function DecodeBits(v: nat, h: nat, n: nat): nat
  {
    if n == 0 then 0 else 2 * DecodeBits(v, h, n - 1) + DataBitAt(v, h, n - 1)
  }

  /** The data bit (the low bit) of pair h + j of slot v. */
  function DataBitAt(v: nat, h: nat, j: nat): nat
  {
    DigitOf(v, h + j) % 2
  }

  /** Raising digit p by delta raises the number by delta times 4 to the power p. */
  lemma {:induction false} Base4Update(ds: seq<nat>, p: nat, delta: nat)
    requires p < |ds|
    ensures Base4(ds[p := ds[p] + delta]) == Base4(ds) + delta * Pow2(2 * p)
  {
    var ds' := ds[p := ds[p] + delta];
    if p == 0 {
      assert ds'[1..] == ds[1..];
    } else {
      assert ds'[1..] == ds[1..][p - 1 := ds[p] + delta];
      Base4Update(ds[1..], p - 1, delta);
      var q := Pow2(2 * (p - 1));
      assert Pow2(2 * p) == 4 * q;
      assert 4 * (delta * q) == delta * (4 * q);
    }
  }

  lemma {:induction false} Base4Bound(ds: seq<nat>)
    requires forall i :: 0 <= i < |ds| ==> ds[i] <= 3
    ensures Base4(ds) < Pow2(2 * |ds|)
  {
    if |ds| > 0 {
      Base4Bound(ds[1..]);
      assert Pow2(2 * |ds|) == 4 * Pow2(2 * (|ds| - 1));
    }
  }

  /** Digit p of a number written from base-4 digits is that digit. */
  lemma {:induction false} Base4Digit(ds: seq<nat>, p: nat)
    requires forall i :: 0 <= i < |ds| ==> ds[i] <= 3
    requires p < |ds|
    ensures DigitOf(Base4(ds), p) == ds[p]
  {
    if p > 0 {
      Base4Digit(ds[1..], p - 1);
    }
  }

  lemma {:induction false} Base4Zero(ds: seq<nat>)
    requires forall i :: 0 <= i < |ds| ==> ds[i] == 0
    ensures Base4(ds) == 0
  {
    if |ds| > 0 {
      Base4Zero(ds[1..]);
    }
  }

  /** Every slot fits the 32-bit PIO FIFO word. */
  lemma SlotBound(cmd: seq<u8>, t: nat, ended: bool, s: nat)
    requires t <= 8 * |cmd|
    ensures Base4(SlotPairs(cmd, t, ended, s)) < 0x1_0000_0000
  {
    Base4Bound(SlotPairs(cmd, t, ended, s));
    Pow2Of32();
  }

  /**
   * The PIO slots of a command (the result array of convertToPio): empty for
   * an empty command, otherwise len/2 + 1 slots holding every data pair and the
   * stop marker.
   */
  function Encode(cmd: seq<u8>): (r: seq<u32>)
    ensures |cmd| == 0 ==> r == []
    ensures |cmd| > 0 ==> |r| == |cmd| / 2 + 1
  {
    if |cmd| == 0 then []
    else seq(|cmd| / 2 + 1, s requires 0 <= s < |cmd| / 2 + 1 => Slot(cmd, 8 * |cmd|, true, s))
  }

  /** Adding pair t (of byte t/8, bit t%8) to the encoding: the loop body of convertToPio. */
  lemma PairStep(cmd: seq<u8>, t: nat, s: nat)
    requires t < 8 * |cmd|
    ensures Slot(cmd, t + 1, false, s) == Slot(cmd, t, false, s) +
              (if s == t / 16 then (2 + DataBit(cmd[t / 8], t % 8)) * Pow2(2 * (t % 16)) else 0)
  {
    var ds := SlotPairs(cmd, t, false, s);
    var ds' := SlotPairs(cmd, t + 1, false, s);
    var r := t % 16;
    assert t == 16 * (t / 16) + r;
    if s == t / 16 {
      var d := 2 + DataBit(cmd[t / 8], t % 8);
      forall q | 0 <= q < 16
        ensures ds'[q] == ds[r := ds[r] + d][q]
      {
        if q == r {
          assert 16 * s + q == t;
        }
      }
      assert ds' == ds[r := ds[r] + d];
      Base4Update(ds, r, d);
    } else {
      assert t < 16 * s || 16 * s + 16 <= t;
      assert ds' == ds;
    }
  }

  /** Adding the stop marker after the last pair: the end-bit statement of convertToPio. */
  lemma EndStep(cmd: seq<u8>, s: nat)
    ensures Slot(cmd, 8 * |cmd|, true, s) == Slot(cmd, 8 * |cmd|, false, s) +
              (if s == |cmd| / 2 then 3 * Pow2(2 * (8 * (|cmd| % 2))) else 0)
  {
    if s == |cmd| / 2 {
      EndStepSame(cmd, s);
    } else {
      EndStepOther(cmd, s);
    }
  }

  lemma EndStepSame(cmd: seq<u8>, s: nat)
    requires s == |cmd| / 2
    ensures Slot(cmd, 8 * |cmd|, true, s) == Slot(cmd, 8 * |cmd|, false, s) + 3 * Pow2(2 * (8 * (|cmd| % 2)))
  {
    var p, t := 8 * (|cmd| % 2), 8 * |cmd|;
    assert t == 16 * s + p;
    var ds, ds' := SlotPairs(cmd, t, false, s), SlotPairs(cmd, t, true, s);
    forall q | 0 <= q < 16
      ensures ds'[q] == ds[p := ds[p] + 3][q]
    {
      if q == p {
        assert 16 * s + q == t;
      }
    }
    assert ds' == ds[p := ds[p] + 3];
    Base4Update(ds, p, 3);
  }

  lemma EndStepOther(cmd: seq<u8>, s: nat)
    requires s != |cmd| / 2
    ensures Slot(cmd, 8 * |cmd|, true, s) == Slot(cmd, 8 * |cmd|, false, s)
  {
    assert 8 * |cmd| == 16 * (|cmd| / 2) + 8 * (|cmd| % 2);
    assert SlotPairs(cmd, 8 * |cmd|, true, s) == SlotPairs(cmd, 8 * |cmd|, false, s);
  }

  /** Every slot below n holds the encoding of the first t pairs of cmd. */
  ghost predicate SlotsHold(result: seq<u32>, n: nat, cmd: seq<u8>, t: nat, ended: bool)
    requires n <= |result| && t <= 8 * |cmd|
  {
    forall s :: 0 <= s < n ==> result[s] == Slot(cmd, t, ended, s)
  }

  /**
   * convertToPio: zero the len/2 + 1 slots, add the two bits of every pair
   * of every byte, then add the stop marker.  An empty command yields no
   * slot and leaves result untouched.
   */
  method ConvertToPio(command: seq<u8>, len: int, result: array<u32>) returns (resultLen: int)
    requires 0 <= len <= |command|
    requires len > 0 ==> len / 2 + 1 <= result.Length
    modifies result
    ensures len == 0 ==> resultLen == 0 && result[..] == old(result[..])
    ensures len > 0 ==> resultLen == len / 2 + 1
    ensures len > 0 ==> result[..resultLen] == Encode(command[..len])
    ensures len > 0 ==> result[resultLen..] == old(result[resultLen..])
  {
    if len == 0 {
      resultLen := 0;
      return;
    }
    resultLen := len / 2 + 1;
    ghost var cmd := command[..len];
    ClearSlots(command, len, result, resultLen);
    AddBytes(command, len, result, resultLen);
    // End bit
    AddEnd(command, len, result, resultLen);
    assert result[..resultLen] == Encode(cmd);
  }

  /** The first loop of convertToPio: every slot of the result starts at zero, the value of a slot with no pair added. */
  method ClearSlots(command: seq<u8>, len: int, result: array<u32>, resultLen: int)
    requires 0 < len <= |command|
    requires resultLen == len / 2 + 1 <= result.Length
    modifies result
    ensures SlotsHold(result[..], resultLen, command[..len], 0, false)
    ensures result[resultLen..] == old(result[resultLen..])
  {
    ghost var cmd := command[..len];
    var i := 0;
    while i < resultLen
      invariant 0 <= i <= resultLen
      invariant forall s :: 0 <= s < i ==> result[s] == 0
      invariant result[resultLen..] == old(result[resultLen..])
    {
      result[i] := 0;
      i := i + 1;
    }
    forall s | 0 <= s < resultLen
      ensures result[s] == Slot(cmd, 0, false, s)
    {
      Base4Zero(SlotPairs(cmd, 0, false, s));
    }
  }

  /** The nested loops of convertToPio: after them every pair of every byte is in its slot. */
  method AddBytes(command: seq<u8>, len: int, result: array<u32>, resultLen: int)
    requires 0 < len <= |command|
    requires resultLen == len / 2 + 1 <= result.Length
    requires SlotsHold(result[..], resultLen, command[..len], 0, false)
    modifies result
    ensures SlotsHold(result[..], resultLen, command[..len], 8 * len, false)
    ensures result[resultLen..] == old(result[resultLen..])
  {
    ghost var cmd := command[..len];
    var i := 0;
    while i < len
      invariant 0 <= i <= len
      invariant SlotsHold(result[..], resultLen, cmd, 8 * i, false)
      invariant result[resultLen..] == old(result[resultLen..])
    {
      var j := 0;
      while j < 8
        invariant 0 <= j <= 8
        invariant SlotsHold(result[..], resultLen, cmd, 8 * i + j, false)
        invariant result[resultLen..] == old(result[resultLen..])
      {
        AddPair(command, len, i, j, result, resultLen);
        j := j + 1;
      }
      i := i + 1;
    }
  }

  /** Pair j of byte i is pair 8 * (i % 2) + j of slot i / 2, and bit j of byte i. */
  lemma PairPosition(i: nat, j: nat)
    requires j < 8
    ensures (8 * i + j) / 16 == i / 2 && (8 * i + j) % 16 == 8 * (i % 2) + j
    ensures (8 * i + j) / 8 == i && (8 * i + j) % 8 == j
  {
    var h, r := i / 2, i % 2;
    assert 8 * i + j == 16 * h + (8 * r + j) && 8 * r + j < 16;
  }

  /** Adding pair j of byte i raises its slot by the timing bit and the data bit at the pair's position. */
  lemma SlotAdd(cmd: seq<u8>, i: nat, j: nat)
    requires i < |cmd| && j < 8
    ensures var k := 8 * (i % 2) + j;
      && 0 <= DataBit(cmd[i], j) * Pow2(2 * k) <= Pow2(2 * k)
      && Slot(cmd, 8 * i + j + 1, false, i / 2)
         == Slot(cmd, 8 * i + j, false, i / 2) + Pow2(2 * k + 1) + DataBit(cmd[i], j) * Pow2(2 * k)
  {
    var t, k := 8 * i + j, 8 * (i % 2) + j;
    PairPosition(i, j);
    PairStep(cmd, t, i / 2);
    assert Pow2(2 * k + 1) == 2 * Pow2(2 * k);
    Distribute(Slot(cmd, t, false, i / 2), Slot(cmd, t + 1, false, i / 2), DataBit(cmd[i], j), Pow2(2 * k), Pow2(2 * k + 1));
  }

  /** A pair digit 2 + d at weight p is the timing bit at weight 2p plus the data bit at weight p. */
  lemma Distribute(a: nat, b: nat, d: nat, p: nat, q: nat)
    requires d <= 1 && q == 2 * p && b == a + (2 + d) * p
    ensures b == a + q + d * p && 0 <= d * p <= p
  {
    if d == 0 {
      assert d * p == 0;
    } else {
      assert d * p == p;
    }
  }

  /** One iteration of the inner loop: the pair of bit j of byte i goes into slot i/2. */
  method AddPair(command: seq<u8>, len: int, i: int, j: int, result: array<u32>, resultLen: int)
    requires 0 <= i < len <= |command| && 0 <= j < 8
    requires resultLen == len / 2 + 1 <= result.Length
    requires SlotsHold(result[..], resultLen, command[..len], 8 * i + j, false)
    modifies result
    ensures SlotsHold(result[..], resultLen, command[..len], 8 * i + j + 1, false)
    ensures result[resultLen..] == old(result[resultLen..])
  {
    ghost var cmd := command[..len];
    ghost var t := 8 * i + j;
    assert cmd[i] == command[i];
    PairPosition(i, j);
    forall s | 0 <= s < resultLen && s != i / 2
      ensures Slot(cmd, t + 1, false, s) == Slot(cmd, t, false, s)
    {
      PairStep(cmd, t, s);
    }
    assert result[i / 2] == Slot(cmd, t, false, i / 2);
    SlotAdd(cmd, i, j);
    result[i / 2] := result[i / 2] + Pow2(2 * (8 * (i % 2) + j) + 1);
    result[i / 2] := result[i / 2] + DataBit(command[i], j) * Pow2(2 * (8 * (i % 2) + j));
  }

  /** The end-bit statement: the stop marker goes right after the last pair. */
  method AddEnd(command: seq<u8>, len: int, result: array<u32>, resultLen: int)
    requires 0 < len <= |command|
    requires resultLen == len / 2 + 1 <= result.Length
    requires SlotsHold(result[..], resultLen, command[..len], 8 * len, false)
    modifies result
    ensures SlotsHold(result[..], resultLen, command[..len], 8 * len, true)
    ensures result[resultLen..] == old(result[resultLen..])
  {
    ghost var cmd := command[..len];
    forall s | 0 <= s < resultLen && s != len / 2
      ensures Slot(cmd, 8 * len, true, s) == Slot(cmd, 8 * len, false, s)
    {
      EndStep(cmd, s);
    }
    EndStep(cmd, len / 2);
    result[len / 2] := result[len / 2] + 3 * Pow2(2 * (8 * (len % 2)));
  }

  /** Bits 2p and 2p+1 of x are the low and high bit of its base-4 digit p. */
  lemma {:induction false} ShrDigit(x: nat, p: nat)
    ensures Shr(x, 2 * p) % 4 == DigitOf(x, p)
  {
    if p > 0 {
      ShrDigit(x / 4, p - 1);
      assert Shr(x, 2 * p) == Shr(x / 2, 2 * p - 1) == Shr(x / 2 / 2, 2 * p - 2);
      assert x / 2 / 2 == x / 4;
    }
  }

  lemma PairBits(x: nat, p: nat)
    ensures Bit(x, 2 * p) == DigitOf(x, p) % 2
    ensures Bit(x, 2 * p + 1) == DigitOf(x, p) / 2
  {
    ShrDigit(x, p);
    ShrSucc(x, 2 * p);
  }

  /** The digit at position k of slot i/2 of the encoding, for bit j of byte i. */
  lemma EncodedDigit(cmd: seq<u8>, i: nat, j: nat)
    requires i < |cmd| && j < 8
    ensures DigitOf(Encode(cmd)[i / 2], 8 * (i % 2) + j) == 2 + DataBit(cmd[i], j)
  {
    var k := 8 * (i % 2) + j;
    PairPosition(i, j);
    assert 16 * (i / 2) + k == 8 * i + j;
    var ds := SlotPairs(cmd, 8 * |cmd|, true, i / 2);
    var d := DataBit(cmd[i], j);
    assert ds[k] == 2 + d;
    Base4Digit(ds, k);
  }

  /** Every pair carries its timing marker: bit 2k+1 is 1 for each data bit. */
  lemma EncodeMarkerBit(cmd: seq<u8>, i: nat, j: nat)
    requires i < |cmd| && j < 8
    ensures Bit(Encode(cmd)[i / 2], 2 * (8 * (i % 2) + j) + 1) == 1
  {
    EncodedDigit(cmd, i, j);
    PairBits(Encode(cmd)[i / 2], 8 * (i % 2) + j);
  }

  /** Bit 2k of the slot is data bit j of byte i (the most significant bit first). */
  lemma EncodeDataBit(cmd: seq<u8>, i: nat, j: nat)
    requires i < |cmd| && j < 8
    ensures Bit(Encode(cmd)[i / 2], 2 * (8 * (i % 2) + j)) == Bit(cmd[i], 7 - j)
  {
    EncodedDigit(cmd, i, j);
    PairBits(Encode(cmd)[i / 2], 8 * (i % 2) + j);
  }

  /**
   * The stop marker 0b11 sits in the pair right after the last data bit, in
   * slot len/2, and every pair after it in that slot is empty, so it overlaps
   * no data or marker bit.
   */
  lemma EncodeEndMarker(cmd: seq<u8>)
    requires |cmd| > 0
    ensures var v := Encode(cmd)[|cmd| / 2];
            var p := 8 * (|cmd| % 2);
            Bit(v, 2 * p) == 1 && Bit(v, 2 * p + 1) == 1 &&
            forall q :: p < q < 16 ==> DigitOf(v, q) == 0
  {
    var v := Encode(cmd)[|cmd| / 2];
    var p := 8 * (|cmd| % 2);
    var ds := SlotPairs(cmd, 8 * |cmd|, true, |cmd| / 2);
    assert 8 * |cmd| == 16 * (|cmd| / 2) + p;
    Base4Digit(ds, p);
    PairBits(v, p);
    forall q | p < q < 16
      ensures DigitOf(v, q) == 0
    {
      Base4Digit(ds, q);
    }
  }

  /** A receiver reading the data bits of the pairs back, most significant first, gets the first n bits of the byte. */
  lemma {:induction false} DecodeBitsPrefix(v: nat, h: nat, b: u8, n: nat)
    requires n <= 8
    requires forall j :: 0 <= j < 8 ==> DataBitAt(v, h, j) == DataBit(b, j)
    ensures DecodeBits(v, h, n) == Shr(b, 8 - n)
  {
    if n > 0 {
      DecodeBitsPrefix(v, h, b, n - 1);
      ShrSucc(b, 8 - n);
      assert DataBitAt(v, h, n - 1) == DataBit(b, n - 1);
    } else {
      ShrBelow(b, 8);
      assert Pow2(8) == 256;
    }
  }

  /** Decoding a byte back from its slot gives the byte: the encoding loses nothing. */
  lemma EncodeDecode(cmd: seq<u8>, i: nat)
    requires i < |cmd|
    ensures DecodeByte(Encode(cmd)[i / 2], 8 * (i % 2)) == cmd[i]
  {
    var v := Encode(cmd)[i / 2];
    forall j | 0 <= j < 8
      ensures DataBitAt(v, 8 * (i % 2), j) == DataBit(cmd[i], j)
    {
      EncodedDigit(cmd, i, j);
      var d := DataBit(cmd[i], j);
      var digit := DigitOf(v, 8 * (i % 2) + j);
      PairDataBit(digit, d);
      assert DataBitAt(v, 8 * (i % 2), j) == digit % 2;
    }
    DecodeBitsPrefix(v, 8 * (i % 2), cmd[i], 8);
  }

  /** The low bit of a data pair 2 + d is the data bit d. */
  lemma PairDataBit(digit: nat, d: nat)
    requires d <= 1 && digit == 2 + d
    ensures digit % 2 == d
  {
  }
}
