/*
 * The shared declarations of the cartridge interface header: the CIC region
 * codes and the byte swap flip16 that turns the cartridge's big-endian words
 * into the byte-swapped (.Z64 style) images.
 */
module CartTypes {
  import opened Bytes
  import opened Bits

  /** The region codes of the CIC lock-out chip, as stored in gCICType. */
  const CicTypePal: u32 := 0
  const CicTypeNtsc: u32 := 1
  const CicTypeInvalid: u32 := 0xFF

  /** flip16: `(x << 8) | (x >> 8)` cut to 16 bits, the value with its two bytes exchanged. */
  function Flip16(x: u16): (r: u16)
    ensures Lo(r) == Hi(x) && Hi(r) == Lo(x)
  {
    Word(Hi(x), Lo(x))
  }

  /**
   * flip16 as the header writes it: the value shifted left by 8 and cut to
   * 16 bits, OR the value shifted right by 8. The two parts share no bit,
   * so the OR is the byte swap.
   */
  lemma Flip16AsWritten(x: u16)
    ensures BitOr((x * 0x100) % 0x1_0000, x / 0x100) == Flip16(x)
  {
    assert Pow2(8) == 0x100;
    assert (x * 0x100) % 0x1_0000 == 0x100 * Lo(x);
    OrDisjoint(Lo(x), Hi(x), 8);
  }

  /** Swapping twice gives the word back. */
  lemma Flip16Involutive(x: u16)
    ensures Flip16(Flip16(x)) == x
  {
    var y := Flip16(Flip16(x));
    assert Lo(y) == Lo(x) && Hi(y) == Hi(x);
    assert y == Lo(y) + 0x100 * Hi(y);
  }

  /** A word is left unchanged by flip16 exactly when its two bytes are equal. */
  lemma Flip16FixedIff(x: u16)
    ensures Flip16(x) == x <==> Lo(x) == Hi(x)
  {
    if Lo(x) == Hi(x) {
      var y := Flip16(x);
      assert y == Lo(y) + 0x100 * Hi(y);
    }
  }

  /** The in-memory image of a run of 16-bit words on the little-endian host. */
  function WordBytes(ws: seq<u16>): (bs: seq<u8>)
    ensures |bs| == 2 * |ws|
  {
    seq(2 * |ws|, k requires 0 <= k < 2 * |ws| => if k % 2 == 0 then Lo(ws[k / 2]) else Hi(ws[k / 2]))
  }

  /** Word i of a run lands at bytes 2i (low) and 2i + 1 (high) of its memory image. */
  lemma WordBytesAt(ws: seq<u16>, i: nat)
    requires i < |ws|
    ensures WordBytes(ws)[2 * i] == Lo(ws[i]) && WordBytes(ws)[2 * i + 1] == Hi(ws[i])
  {
    assert (2 * i) / 2 == i && (2 * i) % 2 == 0;
    assert (2 * i + 1) / 2 == i && (2 * i + 1) % 2 == 1;
  }

  /** flip16 applied to every word. */
  function FlipWords(ws: seq<u16>): (r: seq<u16>)
    ensures |r| == |ws|
  {
    seq(|ws|, i requires 0 <= i < |ws| => Flip16(ws[i]))
  }

  /** The byte sequence with each aligned pair of bytes exchanged. */
  function SwapPairs(bs: seq<u8>): (r: seq<u8>)
    requires |bs| % 2 == 0
    ensures |r| == |bs|
  {
    seq(|bs|, k requires 0 <= k < |bs| => if k % 2 == 0 then bs[k + 1] else bs[k - 1])
  }

  /** Flipping every word of a buffer exchanges the bytes of each pair in its memory image. */
  lemma FlipWordsSwapsBytes(ws: seq<u16>)
    ensures WordBytes(FlipWords(ws)) == SwapPairs(WordBytes(ws))
  {
    var l := WordBytes(FlipWords(ws));
    var r := SwapPairs(WordBytes(ws));
    forall k | 0 <= k < |l|
      ensures l[k] == r[k]
    {
      if k % 2 == 0 {
        assert (k + 1) / 2 == k / 2;
      } else {
        assert (k - 1) / 2 == k / 2;
      }
    }
  }
}
