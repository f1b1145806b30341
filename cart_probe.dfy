/*
 * What cartio_init decides from the cartridge's answers: the ROM size, the
 * presence and kind of a FlashRAM chip, whether anything answers in the SRAM
 * window, the CIC region from its hello nibble and the CIC variant from the
 * CRC-32 of the boot code.  The answers are the word maps of CartBus: the
 * array answers for the ROM, the status answers for the FlashRAM identify.
 */
module CartProbe {
  import opened Bytes
  import opened Bits
  import opened CartTypes
  import opened CartBus

  /** The first word of every N64 ROM image. */
  const RomHeaderWord: u32 := 0x8037_1240
  /** The first status word a FlashRAM chip returns after the identify command. */
  const FlashStatusWord: u32 := 0x1111_8001
  const MiB: nat := 0x10_0000

  /** What an undriven bus reads back as: the low half of the address on both halves. */
  function EchoWord(v: nat): u32
    requires v < 0x1_0000
  {
    0x1_0000 * v + v
  }

  /** Both halves of the echo word hold v. */
  lemma EchoWordHalves(v: nat)
    requires v < 0x1_0000
    ensures EchoWord(v) / 0x1_0000 == v && EchoWord(v) % 0x1_0000 == v
  {
  }

  /** The firmware builds the echo as `v | v << 16`; the halves do not overlap. */
  lemma EchoWordIsOr(v: nat)
    requires v < 0x1_0000
    ensures BitOr(v, 0x1_0000 * v) == EchoWord(v)
  {
    Pow2Of32();
    assert Pow2(8) == 0x100;
    Pow2Add(8, 8);
    OrLowHigh(v, v, 16);
  }

  // ---------------------------------------------------------------- ROM size

  /** Whether the ROM at x MiB repeats the header: the image is mirrored there. */
  predicate Mirrors(bus: u32 -> u16, header: u32, x: nat)
    requires x < 64
  {
    Word32At(bus, CartAddressStart + x * MiB) == header
  }

  /** Whether word y at x MiB reads back as an undriven bus: the low half of its address on both halves. */
  predicate EchoesAt(bus: u32 -> u16, x: nat, y: nat)
    requires x < 64 && y < 256
  {
    Word32At(bus, CartAddressStart + x * MiB + 2 * y) == EchoWord((x * MiB) % 0x1_0000 + 2 * y)
  }

  /** Whether the first 256 words at x MiB read back as an undriven bus. */
  predicate OpenBusAt(bus: u32 -> u16, x: nat)
    requires x < 64
  {
    forall y :: 0 <= y < 256 ==> EchoesAt(bus, x, y)
  }

  /** Whether the probe at x MiB ends the ROM-size search. */
  predicate RomEndsAt(bus: u32 -> u16, header: u32, x: nat)
    requires x < 64
  {
    Mirrors(bus, header, x) || OpenBusAt(bus, x)
  }

  /** The probe of the ROM-size search as a test on the step x (in MiB). */
  function RomProbe(bus: u32 -> u16, header: u32): nat -> bool
  {
    (x: nat) => x < 64 && RomEndsAt(bus, header, x)
  }

  /** The step at which a search over x, x + 4, ... below 64 stops; 64 when no step ends it. */
  function FirstStep(ends: nat -> bool, x: nat): nat
    decreases 64 - x
  {
    if x >= 64 then 64
    else if ends(x) then x
    else FirstStep(ends, x + 4)
  }

  /** The ROM size cartio_init stores: the search starts at 4 MiB and keeps the prior size when nothing ends it. */
  function RomSize(bus: u32 -> u16, header: u32, prior: u32): u32
  {
    var x := FirstStep(RomProbe(bus, header), 4);
    if x < 64 then x * MiB else prior
  }

  /** The first step x (from `from`, in steps of 4) at which the test holds is where the search stops. */
  lemma {:induction false} FirstStepIs(ends: nat -> bool, from: nat, x: nat)
    requires from % 4 == 0 && from <= x < 64 && x % 4 == 0
    requires ends(x)
    requires forall z :: from <= z < x && z % 4 == 0 ==> !ends(z)
    ensures FirstStep(ends, from) == x
    decreases 64 - from
  {
    if from < x {
      FirstStepIs(ends, from + 4, x);
    }
  }

  /** Conversely, where the search stops below 64 the test holds. */
  lemma {:induction false} FirstStepEnds(ends: nat -> bool, from: nat)
    requires from % 4 == 0
    ensures var x := FirstStep(ends, from);
      x == 64 || (from <= x < 64 && x % 4 == 0 && ends(x))
    decreases 64 - from
  {
    if from < 64 && !ends(from) {
      FirstStepEnds(ends, from + 4);
    }
  }

  /** And it holds at no step before the one where the search stops. */
  lemma {:induction false} FirstStepNoneBefore(ends: nat -> bool, from: nat, z: nat)
    requires from % 4 == 0 && from <= z < FirstStep(ends, from) && z % 4 == 0
    ensures z < 64 && !ends(z)
    decreases 64 - from
  {
    if z != from {
      FirstStepNoneBefore(ends, from + 4, z);
    }
  }

  /**
   * The ROM size is x MiB for the first step x (from 4, in steps of 4) at which
   * the search ends, and the prior size when it ends at none.
   */
  lemma RomSizeOfSearch(bus: u32 -> u16, header: u32, prior: u32, r: nat)
    requires 4 <= r <= 64 && r % 4 == 0
    requires r < 64 ==> RomEndsAt(bus, header, r)
    requires forall z :: 4 <= z < r && z % 4 == 0 ==> !RomEndsAt(bus, header, z)
    ensures RomSize(bus, header, prior) == if r < 64 then r * MiB else prior
  {
    var probe := RomProbe(bus, header);
    if r < 64 {
      assert probe(r);
      forall z | 4 <= z < r && z % 4 == 0
        ensures !probe(z)
      {
      }
      FirstStepIs(probe, 4, r);
    } else {
      FirstStepEnds(probe, 4);
      var x := FirstStep(probe, 4);
      if x < 64 {
        assert false;
      }
    }
  }

  // ---------------------------------------------------------------- FlashRAM

  /** The FlashRAM device codes the firmware accepts. */
  predicate KnownFlashType(t: nat)
  {
    t == 0x1E || t == 0x1D || t == 0xF1 || t == 0x8E || t == 0x84
  }

  /** The flash type byte: the low byte of the second status word the chip answers with in status mode. */
  function FlashTypeOf(status: u32 -> u16): (t: u8)
    ensures t == Lo(status(Wrap32(SramAddressStart + 6)))
  {
    Word32At(status, SramAddressStart + 4) % 0x100
  }

  /** Whether the status words read after the identify command name a known FlashRAM chip. */
  predicate FlashIdentified(status: u32 -> u16)
  {
    Word32At(status, SramAddressStart) == FlashStatusWord && KnownFlashType(FlashTypeOf(status))
  }

  /** A FlashRAM command: the command register's address, then the 32-bit command word. */
  function FlashCommand(command: nat): seq<BusOp>
  {
    [Latch(FlashCommandAddress)] + Write32Ops(command)
  }

  /** The identify command: 0xE1000000 to the command register, then the status words are read at the SRAM base. */
  function IdentifyOps(): seq<BusOp>
  {
    FlashCommand(0xE100_0000) + [Latch(SramAddressStart)]
  }

  /** The read-array command that puts the chip back into read mode. */
  function ReadModeOps(): seq<BusOp>
  {
    FlashCommand(0xF000_0000)
  }

  // ---------------------------------------------------------------- SRAM

  /** Whether nothing answers in the SRAM window: its first 256 words echo their addresses. */
  predicate SramOpenBus(bus: u32 -> u16)
  {
    forall i :: 0 <= i < 256 ==>
      Word32At(bus, SramAddressStart + 2 * i) == EchoWord((SramAddressStart + 2 * i) % 0x1_0000)
  }

  // ---------------------------------------------------------------- CIC

  /** The hello nibble clocked out of the CIC, first sample in bit 3. */
  function HelloNibble(samples: seq<bool>): (h: nat)
    requires |samples| == 4
    ensures h < 16
    ensures Bit(h, 3) == 1 <==> samples[0]
    ensures Bit(h, 2) == 1 <==> samples[1]
    ensures Bit(h, 1) == 1 <==> samples[2]
    ensures Bit(h, 0) == 1 <==> samples[3]
  {
    var h := (if samples[0] then 8 else 0) + (if samples[1] then 4 else 0)
      + (if samples[2] then 2 else 0) + (if samples[3] then 1 else 0);
    ShrSucc(h, 1);
    ShrSucc(h, 2);
    h
  }

  /** The region code stored in gCICType for a hello nibble. */
  function CicTypeOf(hello: nat): (t: u32)
    ensures t == CicTypePal || t == CicTypeNtsc || t == CicTypeInvalid
  {
    if hello == 5 then CicTypePal
    else if hello == 1 then CicTypeNtsc
    else CicTypeInvalid
  }

  /** A PAL CIC answers low, high, low, high; an NTSC CIC low, low, low, high; anything else is invalid. */
  lemma CicTypeFromSamples(samples: seq<bool>)
    requires |samples| == 4
    ensures CicTypeOf(HelloNibble(samples)) == CicTypePal <==> samples == [false, true, false, true]
    ensures CicTypeOf(HelloNibble(samples)) == CicTypeNtsc <==> samples == [false, false, false, true]
  {
    if samples == [false, true, false, true] {
      assert HelloNibble(samples) == 5;
    }
    if samples == [false, false, false, true] {
      assert HelloNibble(samples) == 1;
    }
    if HelloNibble(samples) == 5 {
      assert samples == [false, true, false, true];
    }
    if HelloNibble(samples) == 1 {
      assert samples == [false, false, false, true];
    }
  }

  const CrcNus6101: u32 := 0x9AF3_0466
  const CrcNus6102: u32 := 0x6D08_9C64
  const CrcNus6103: u32 := 0x211B_A9FB
  const CrcNus6105: u32 := 0x520D_9ABB
  const CrcNus6106: u32 := 0x266C_376C
  const CrcNus8303: u32 := 0x0E01_8159
  const CrcNus7101: u32 := 0x1270_6049
  const CrcIque1: u32 := 0xCD19_FEF1
  const CrcIque2: u32 := 0xB98C_ED9A
  const CrcIque3: u32 := 0xE71C_2766
  /** Defined by the firmware but not recognised by its switch. */
  const CrcNus5101: u32 := 0x587B_D543
  const CrcNus7102: u32 := 0x009E_9EA3

  /** The CIC variant named by the CRC-32 of the boot code. */
  function CicName(crc: u32): string
  {
    if crc == CrcNus6101 then "6101"
    else if crc == CrcIque1 then "iQue 1"
    else if crc == CrcIque2 then "iQue 2"
    else if crc == CrcIque3 then "iQue 3"
    else if crc == CrcNus6102 then "6102"
    else if crc == CrcNus6103 then "6103"
    else if crc == CrcNus6105 then "6105"
    else if crc == CrcNus6106 then "6106"
    else if crc == CrcNus8303 then "8303"
    else if crc == CrcNus7101 then "7101"
    else "Unknown"
  }

  /** The boot-code checksums the switch recognises. */
  predicate KnownCic(crc: u32)
  {
    crc in {CrcNus6101, CrcIque1, CrcIque2, CrcIque3, CrcNus6102, CrcNus6103, CrcNus6105, CrcNus6106, CrcNus8303, CrcNus7101}
  }

  /** A checksum is named exactly when it is one of the ten the switch lists, and different checksums get different names. */
  lemma CicNameKnownIff(crc: u32, other: u32)
    ensures CicName(crc) != "Unknown" <==> KnownCic(crc)
    ensures KnownCic(crc) && KnownCic(other) && crc != other ==> CicName(crc) != CicName(other)
  {
  }

  /** The 5101 and 7102 checksums are defined but fall to the default name. */
  lemma CicNameUnlisted()
    ensures CicName(CrcNus5101) == "Unknown" && CicName(CrcNus7102) == "Unknown"
  {
  }
}
