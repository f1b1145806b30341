/*
 * The save-memory routines of the cartridge interface, as the bus traffic
 * they produce and the words they return.  A 512-byte FlashRAM write goes in
 * four 128-byte chunks: each chunk is compared with what the chip holds, and
 * is erased first when some new word needs a bit set that the chip has
 * cleared, programmed when anything differs, and left alone otherwise.
 */
module CartSave {
  import opened Bytes
  import opened Bits
  import opened CartTypes
  import opened CartBus
  import opened CartProbe

  /** The FlashRAM part whose read addresses are in 16-bit units (the byte offset halved). */
  const HalvedReadFlashType: u8 := 0x1E

  /** The word a pair of buffer bytes becomes: b0 in the low byte, or in the high byte when flip is set. */
  function PackWord(b0: u8, b1: u8, flip: bool): u16
  {
    if flip then 0x100 * b0 + b1 else 0x100 * b1 + b0
  }

  /** The firmware's `buffer[i] | buffer[i + 1] << 8`, passed through flip16 when flip is set, is PackWord. */
  lemma PackWordAsWritten(b0: u8, b1: u8, flip: bool)
    ensures BitOr(b0, 0x100 * b1) < 0x1_0000
    ensures PackWord(b0, b1, flip) == (var t := BitOr(b0, 0x100 * b1); if flip then Flip16(t) else t)
  {
    assert Pow2(8) == 0x100;
    OrLowHigh(b0, b1, 8);
    var t := Word(b0, b1);
    assert BitOr(b0, 0x100 * b1) == t;
    assert Flip16(t) == Word(b1, b0);
    assert PackWord(b0, b1, flip) == if flip then Word(b1, b0) else t;
  }

  /** Without flip the first byte is the low byte of the word; with flip the bytes trade places. */
  lemma PackWordBytes(b0: u8, b1: u8, flip: bool)
    ensures !flip ==> Lo(PackWord(b0, b1, flip)) == b0 && Hi(PackWord(b0, b1, flip)) == b1
    ensures flip ==> Lo(PackWord(b0, b1, flip)) == b1 && Hi(PackWord(b0, b1, flip)) == b0
  {
    assert PackWord(b0, b1, flip) == if flip then Word(b1, b0) else Word(b0, b1);
  }

  /** The 256 words an SRAM write puts on the bus, one per pair of buffer bytes. */
  function SramWords(buffer: seq<u8>, flip: bool): (ws: seq<u16>)
    requires |buffer| >= 512
    ensures |ws| == 256
  {
    seq(256, i requires 0 <= i < 256 => PackWord(buffer[2 * i], buffer[2 * i + 1], flip))
  }

  /** The bus traffic of SRAMWrite512B: all 256 words, then the first two words again from the start. */
  function SramWriteOps(address: u32, buffer: seq<u8>, flip: bool): seq<BusOp>
    requires |buffer| >= 512
  {
    [Latch(address)] + WriteOps(SramWords(buffer, flip)) + [Latch(address)] + WriteOps(SramWords(buffer, flip)[..2])
  }

  /** Without flip the words written hold the buffer's bytes in order; with flip each pair is swapped. */
  lemma SramWordsImage(buffer: seq<u8>)
    requires |buffer| >= 512
    ensures WordBytes(SramWords(buffer, false)) == buffer[..512]
    ensures WordBytes(SramWords(buffer, true)) == SwapPairs(buffer[..512])
  {
    var plain := WordBytes(SramWords(buffer, false));
    var swapped := WordBytes(SramWords(buffer, true));
    forall k | 0 <= k < 512
      ensures plain[k] == buffer[k]
      ensures swapped[k] == SwapPairs(buffer[..512])[k]
    {
      var i := k / 2;
      assert k == 2 * i || k == 2 * i + 1;
    }
  }

  // ---------------------------------------------------------------- FlashRAM chunks

  /** The byte offset of chunk x of a 512-byte FlashRAM block (uint32_t arithmetic). */
  function ChunkOffset(address: u32, x: nat): u32
  {
    Wrap32(address + 128 * x)
  }

  /** The bus address from which the chip's copy of a chunk is read back. */
  function FlashReadBase(flashType: u8, offset: u32): u32
  {
    Wrap32(SramAddressStart + (if flashType == HalvedReadFlashType then offset / 2 else offset))
  }

  /** The 64 words chunk x of the buffer should hold on the chip. */
  function ChunkWords(buffer: seq<u8>, x: nat, flip: bool): (ws: seq<u16>)
    requires |buffer| >= 512 && x < 4
    ensures |ws| == 64
  {
    seq(64, w requires 0 <= w < 64 => PackWord(buffer[128 * x + 2 * w], buffer[128 * x + 2 * w + 1], flip))
  }

  /** The 64 words the chip holds for chunk x. */
  function StoredWords(bus: u32 -> u16, flashType: u8, address: u32, x: nat): (ws: seq<u16>)
    ensures |ws| == 64
  {
    Words(bus, FlashReadBase(flashType, ChunkOffset(address, x)), 64)
  }

  /** Programming can only clear bits: an erase is needed when some new word has a bit the stored word lacks. */
  predicate EraseNeeded(nw: seq<u16>, stored: seq<u16>)
    requires |nw| == |stored|
  {
    exists w :: 0 <= w < |nw| && BitAnd(nw[w], stored[w]) != nw[w]
  }

  /** The erase test `(new & stored) != new` finds exactly the words needing a 0 bit turned into 1. */
  lemma EraseNeededIff(nw: seq<u16>, stored: seq<u16>)
    requires |nw| == |stored|
    ensures EraseNeeded(nw, stored) <==>
      exists w, k: nat :: 0 <= w < |nw| && Bit(nw[w], k) == 1 && Bit(stored[w], k) == 0
  {
    if EraseNeeded(nw, stored) {
      var w :| 0 <= w < |nw| && BitAnd(nw[w], stored[w]) != nw[w];
      AndCoversIff(nw[w], stored[w]);
      var k: nat :| Bit(nw[w], k) == 1 && Bit(stored[w], k) != 1;
      assert Bit(stored[w], k) == 0;
    }
    if exists w, k: nat :: 0 <= w < |nw| && Bit(nw[w], k) == 1 && Bit(stored[w], k) == 0 {
      var w, k: nat :| 0 <= w < |nw| && Bit(nw[w], k) == 1 && Bit(stored[w], k) == 0;
      AndCoversIff(nw[w], stored[w]);
    }
  }

  /** A chunk that needs an erase also differs, so it is programmed afterwards. */
  lemma EraseImpliesDiffers(nw: seq<u16>, stored: seq<u16>)
    requires |nw| == |stored|
    ensures EraseNeeded(nw, stored) ==> nw != stored
  {
    if EraseNeeded(nw, stored) {
      var w :| 0 <= w < |nw| && BitAnd(nw[w], stored[w]) != nw[w];
      AndSelf(nw[w]);
    }
  }

  /** Whether the chip's first status word reads as ready, which ends the status poll. */
  predicate FlashReady(status: u32 -> u16)
  {
    Word32At(status, SramAddressStart) == FlashStatusWord
  }

  /** FlashRamEraseBlock128B: erase address, erase, execute, then one status poll. */
  function EraseOps(block: nat): seq<BusOp>
  {
    FlashCommand(BitOr(0x4B00_0000, block)) + FlashCommand(0x7800_0000) + FlashCommand(0xD200_0000) + IdentifyOps()
  }

  /** Write mode, fill the 128-byte page buffer, set the write address, execute, then one status poll. */
  function ProgramOps(block: nat, nw: seq<u16>): seq<BusOp>
  {
    FlashCommand(0xB400_0000) + ([Latch(SramAddressStart)] + WriteOps(nw))
    + FlashCommand(BitOr(0xA500_0000, block)) + FlashCommand(0xD200_0000) + IdentifyOps()
  }

  /** The bus traffic of chunk x of FlashRamWrite512B. */
  function ChunkOps(bus: u32 -> u16, flashType: u8, address: u32, buffer: seq<u8>, flip: bool, x: nat): seq<BusOp>
    requires |buffer| >= 512 && x < 4
  {
    var offset := ChunkOffset(address, x);
    var nw := ChunkWords(buffer, x, flip);
    var stored := StoredWords(bus, flashType, address, x);
    ReadModeOps() + [Latch(FlashReadBase(flashType, offset))]
    + (if EraseNeeded(nw, stored) then EraseOps(offset / 128) else [])
    + (if nw != stored then ProgramOps(offset / 128, nw) else [])
  }

  /** ChunkOps as the three pieces the write routine puts on the bus one after the other. */
  lemma ChunkOpsPieces(bus: u32 -> u16, flashType: u8, address: u32, buffer: seq<u8>, flip: bool, x: nat, erase: bool, write: bool)
    requires |buffer| >= 512 && x < 4
    requires erase == EraseNeeded(ChunkWords(buffer, x, flip), StoredWords(bus, flashType, address, x))
    requires write == (ChunkWords(buffer, x, flip) != StoredWords(bus, flashType, address, x))
    ensures ChunkOps(bus, flashType, address, buffer, flip, x)
      == (ReadModeOps() + [Latch(FlashReadBase(flashType, ChunkOffset(address, x)))])
      + (if erase then EraseOps(ChunkOffset(address, x) / 128) else [])
      + (if write then ProgramOps(ChunkOffset(address, x) / 128, ChunkWords(buffer, x, flip)) else [])
  {
  }

  /** The bus traffic of the first n chunks. */
  function FlashWriteOps(bus: u32 -> u16, flashType: u8, address: u32, buffer: seq<u8>, flip: bool, n: nat): seq<BusOp>
    requires |buffer| >= 512 && n <= 4
  {
    if n == 0 then [] else FlashWriteOps(bus, flashType, address, buffer, flip, n - 1) + ChunkOps(bus, flashType, address, buffer, flip, n - 1)
  }

  /** Appending chunk x's traffic after the first x chunks gives the first x + 1. */
  lemma FlashWriteOpsStep(t: seq<BusOp>, bus: u32 -> u16, flashType: u8, address: u32, buffer: seq<u8>, flip: bool, x: nat)
    requires |buffer| >= 512 && x < 4
    ensures t + FlashWriteOps(bus, flashType, address, buffer, flip, x) + ChunkOps(bus, flashType, address, buffer, flip, x)
      == t + FlashWriteOps(bus, flashType, address, buffer, flip, x + 1)
  {
  }

  /** A chunk whose words already match the chip is neither erased nor programmed, and only then. */
  lemma ChunkUntouchedIff(bus: u32 -> u16, flashType: u8, address: u32, buffer: seq<u8>, flip: bool, x: nat)
    requires |buffer| >= 512 && x < 4
    ensures ChunkOps(bus, flashType, address, buffer, flip, x)
      == ReadModeOps() + [Latch(FlashReadBase(flashType, ChunkOffset(address, x)))]
      <==> ChunkWords(buffer, x, flip) == StoredWords(bus, flashType, address, x)
  {
    var nw := ChunkWords(buffer, x, flip);
    var stored := StoredWords(bus, flashType, address, x);
    EraseImpliesDiffers(nw, stored);
    if nw == stored {
      assert !EraseNeeded(nw, stored);
    } else {
      var ops := ChunkOps(bus, flashType, address, buffer, flip, x);
      var prefix := ReadModeOps() + [Latch(FlashReadBase(flashType, ChunkOffset(address, x)))];
      assert |ops| >= |prefix| + |ProgramOps(ChunkOffset(address, x) / 128, nw)|;
    }
  }

  /** The block number of a FlashRAM offset below 2^31 lands in the low 24 bits of the erase and write commands. */
  lemma CommandBlock(block: nat)
    requires block < 0x100_0000
    ensures BitOr(0x4B00_0000, block) == 0x4B00_0000 + block
    ensures BitOr(0xA500_0000, block) == 0xA500_0000 + block
  {
    Pow2Of32();
    assert Pow2(8) == 0x100;
    Pow2Add(8, 8);
    Pow2Add(16, 8);
    assert Pow2(24) == 0x100_0000;
    OrDisjoint(0x4B, block, 24);
    OrDisjoint(0xA5, block, 24);
  }

  // ---------------------------------------------------------------- reads

  /** The 256 words FlashRamRead512B returns: 64 per chunk, read from the chunk's read-back address. */
  function FlashReadWords(bus: u32 -> u16, flashType: u8, address: u32, flip: bool): (ws: seq<u16>)
    ensures |ws| == 256
  {
    seq(256, k requires 0 <= k < 256 =>
      var w := bus(Wrap32(FlashReadBase(flashType, ChunkOffset(address, k / 64)) + 2 * (k % 64)));
      if flip then Flip16(w) else w)
  }

  /** The bus traffic of FlashRamRead512B: read mode, then one address per chunk. */
  function FlashReadOps(flashType: u8, address: u32): seq<BusOp>
  {
    ReadModeOps() + seq(4, x requires 0 <= x < 4 => Latch(FlashReadBase(flashType, ChunkOffset(address, x))))
  }

  /** The read-mode command and the first x chunk addresses, then chunk x's address. */
  lemma FlashReadOpsStep(flashType: u8, address: u32, x: nat)
    requires x < 4
    ensures FlashReadOps(flashType, address)[..3 + x + 1]
      == FlashReadOps(flashType, address)[..3 + x] + [Latch(FlashReadBase(flashType, ChunkOffset(address, x)))]
    ensures |FlashReadOps(flashType, address)| == 7
  {
  }

  /** Words as read16 returns them, passed through flip16 when flip is set. */
  function Oriented(ws: seq<u16>, flip: bool): seq<u16>
  {
    if flip then FlipWords(ws) else ws
  }

  /** Chunk x of a FlashRamRead512B is the 64 words at the chunk's read-back address. */
  lemma FlashReadChunk(bus: u32 -> u16, flashType: u8, address: u32, flip: bool, x: nat)
    requires x < 4
    ensures FlashReadWords(bus, flashType, address, flip)[64 * x..64 * x + 64]
      == Oriented(StoredWords(bus, flashType, address, x), flip)
  {
    var r := FlashReadWords(bus, flashType, address, flip)[64 * x..64 * x + 64];
    var o := Oriented(StoredWords(bus, flashType, address, x), flip);
    assert |o| == 64;
    forall w | 0 <= w < 64
      ensures r[w] == o[w]
    {
      FlashReadWordAt(bus, flashType, address, flip, x, w);
    }
  }

  /** Word w of chunk x of a FlashRamRead512B. */
  lemma FlashReadWordAt(bus: u32 -> u16, flashType: u8, address: u32, flip: bool, x: nat, w: nat)
    requires x < 4 && w < 64
    ensures FlashReadWords(bus, flashType, address, flip)[64 * x + w]
      == Oriented(StoredWords(bus, flashType, address, x), flip)[w]
  {
    ChunkPosition(x, w);
    var v := StoredWords(bus, flashType, address, x)[w];
    assert FlashReadWords(bus, flashType, address, flip)[64 * x + w] == if flip then Flip16(v) else v;
  }

  /** Word w of chunk x sits at 64x + w of the whole read. */
  lemma ChunkPosition(x: nat, w: nat)
    requires w < 64
    ensures (64 * x + w) / 64 == x && (64 * x + w) % 64 == w
  {
  }

  /** FlashRamRead512B reads back exactly the words FlashRamWrite512B compares each chunk with. */
  lemma FlashReadMatchesCompare(bus: u32 -> u16, flashType: u8, address: u32, x: nat)
    requires x < 4
    ensures FlashReadWords(bus, flashType, address, false)[64 * x..64 * x + 64] == StoredWords(bus, flashType, address, x)
  {
    FlashReadChunk(bus, flashType, address, false, x);
  }

  /** The flipped read is the byte-swapped image of the plain read. */
  lemma FlashReadFlipped(bus: u32 -> u16, flashType: u8, address: u32)
    ensures FlashReadWords(bus, flashType, address, true) == FlipWords(FlashReadWords(bus, flashType, address, false))
  {
  }

  /** SRAMRead512B: 256 words from the SRAM window at the given offset. */
  function SramReadWords(bus: u32 -> u16, address: u32, flip: bool): (ws: seq<u16>)
    ensures |ws| == 256
  {
    Oriented(Words(bus, Wrap32(address + SramAddressStart), 256), flip)
  }
}
