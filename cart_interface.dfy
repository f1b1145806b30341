/*
 * The cartridge interface: the globals cartio_init fills in by probing the
 * cartridge over the bus, and the save-memory routines.  Each probe loop is a
 * method proved against the matching definition in CartProbe or CartSave.
 */
module CartInterface {
  import opened Bytes
  import opened Bits
  import opened CartTypes
  import opened CartBus
  import opened CartProbe
  import opened CartSave
  import opened CartCrc
  import opened Joybus

  /** The byte addresses of the game title, the game code and the boot code in the ROM header. */
  const TitleAddress: u32 := 0x1000_0020
  const TitleWords: nat := 0x16
  const GameCodeAddress: u32 := 0x1000_003A
  const GameCodeWords: nat := 6
  const BootCodeAddress: u32 := 0x1000_0040
  const BootCodeWords: nat := 0xFC0 / 2

  /** The latches ReadBootCode makes: one per boot-code word. */
  function BootCodeLatches(): (ops: seq<BusOp>)
    ensures |ops| == BootCodeWords
  {
    seq(BootCodeWords, i requires 0 <= i < BootCodeWords => Latch(BootCodeAddress + 2 * i))
  }

  /** The value of the first x hello samples read as a binary number, first sample most significant. */
  function HelloPrefix(samples: seq<bool>, x: nat): nat
    requires x <= |samples|
  {
    if x == 0 then 0 else 2 * HelloPrefix(samples, x - 1) + (if samples[x - 1] then 1 else 0)
  }

  /** The CIC hello loop: `CICHello |= sample << (3 - x)` for the four samples of the DIO line. */
  method ReadCicHello(samples: seq<bool>) returns (hello: nat)
    requires |samples| == 4
    ensures hello == HelloNibble(samples)
  {
    hello := 0;
    var x := 0;
    while x < 4
      invariant 0 <= x <= 4
      invariant hello == Pow2(4 - x) * HelloPrefix(samples, x)
    {
      var bit := if samples[x] then 1 else 0;
      HelloStep(samples, x);
      OrDisjoint(HelloPrefix(samples, x), bit * Pow2(3 - x), 4 - x);
      hello := BitOr(hello, bit * Pow2(3 - x));
      x := x + 1;
    }
    HelloPrefixFull(samples);
  }

  lemma HelloStep(samples: seq<bool>, x: nat)
    requires x < 4 <= |samples|
    ensures var bit := if samples[x] then 1 else 0;
      bit * Pow2(3 - x) < Pow2(4 - x) &&
      Pow2(4 - x) * HelloPrefix(samples, x) + bit * Pow2(3 - x) == Pow2(3 - x) * HelloPrefix(samples, x + 1)
  {
    var p := Pow2(3 - x);
    assert Pow2(4 - x) == 2 * p;
    assert 2 * p * HelloPrefix(samples, x) == p * (2 * HelloPrefix(samples, x));
  }

  lemma HelloPrefixFull(samples: seq<bool>)
    requires |samples| == 4
    ensures Pow2(0) * HelloPrefix(samples, 4) == HelloNibble(samples)
  {
    assert Pow2(0) == 1;
    assert HelloPrefix(samples, 1) == (if samples[0] then 1 else 0);
    assert HelloPrefix(samples, 2) == 2 * HelloPrefix(samples, 1) + (if samples[1] then 1 else 0);
    assert HelloPrefix(samples, 3) == 2 * HelloPrefix(samples, 2) + (if samples[2] then 1 else 0);
    assert HelloPrefix(samples, 4) == 2 * HelloPrefix(samples, 3) + (if samples[3] then 1 else 0);
  }

  /** The cartridge slot and the globals the firmware keeps about the inserted cartridge. */
  class Cart {
    const port: BusPort
    /** The CRC-32 table shared by every si_crc32 call. */
    const engine: CrcEngine
    /** gRomSize, in bytes. */
    var romSize: u32
    /** gFramPresent: nonzero once a FlashRAM chip has identified itself. */
    var framPresent: u32
    /** gSRAMPresent: zero once the SRAM window reads as an undriven bus. */
    var sramPresent: u32
    /** gFlashType: the low byte of the FlashRAM's second status word. */
    var flashType: u8
    /** gCICType: one of the CIC_TYPES codes. */
    var cicType: u32
    /** gGameTitle: the title words, byte-swapped into host order. */
    var gameTitle: seq<u16>
    /** gGameCode */
    var gameCode: seq<u16>
    /** gCICName: empty until cartio_init names the CIC. */
    var cicName: string

    /** The globals as the firmware starts with them. */
    constructor(bus: u32 -> u16, status: u32 -> u16)
      ensures fresh(port) && fresh(engine) && fresh(engine.table) && engine.Valid()
      ensures port.bus == bus && port.status == status && !port.statusMode && port.trace == []
      ensures romSize == 64 * MiB && framPresent == 0 && sramPresent == 1 && flashType == 0
      ensures cicType == CicTypeInvalid && cicName == ""
      ensures gameTitle == seq(TitleWords, _ => 0) && gameCode == seq(GameCodeWords, _ => 0)
    {
      port := new BusPort(bus, status);
      engine := new CrcEngine();
      romSize := 64 * MiB;
      framPresent := 0;
      sramPresent := 1;
      flashType := 0;
      cicType := CicTypeInvalid;
      gameTitle := seq(TitleWords, _ => 0);
      gameCode := seq(GameCodeWords, _ => 0);
      cicName := "";
    }

    /** The first word of the ROM, read at the start of the cartridge window. */
    method ReadHeader() returns (read: u32)
      modifies port
      ensures read == Word32At(port.bus, CartAddressStart)
      ensures port.trace == old(port.trace) + [Latch(CartAddressStart)] && port.statusMode == old(port.statusMode)
    {
      port.SetAddress(CartAddressStart);
      read := port.Read32();
      Word32OutsideWindow(port.bus, port.status, port.statusMode, CartAddressStart);
    }

    /** The open-bus check at x MiB: 256 words, each latched on its own, must echo their address. */
    method ProbeOpenBusAt(x: nat) returns (open: bool)
      requires x < 64
      modifies port
      ensures open == OpenBusAt(port.bus, x)
      ensures AppendsLatchesWithin(old(port.trace), port.trace, CartAddressStart, CartAddressStart + 64 * MiB)
      ensures port.statusMode == old(port.statusMode)
    {
      assert x * MiB <= 63 * MiB;
      open := true;
      var y := 0;
      while y < 256
        invariant 0 <= y <= 256 && open
        invariant forall z :: 0 <= z < y ==> EchoesAt(port.bus, x, z)
        invariant AppendsLatchesWithin(old(port.trace), port.trace, CartAddressStart, CartAddressStart + 64 * MiB)
        invariant port.statusMode == old(port.statusMode)
      {
        ghost var before := port.trace;
        port.SetAddress(CartAddressStart + x * MiB + 2 * y);
        AppendsLatchesTrans(old(port.trace), before, port.trace, CartAddressStart, CartAddressStart + 64 * MiB);
        var expected := EchoWord((x * MiB) % 0x1_0000 + 2 * y);
        var readcheck := port.Read32();
        Word32OutsideWindow(port.bus, port.status, port.statusMode, CartAddressStart + x * MiB + 2 * y);
        if readcheck != expected {
          assert !EchoesAt(port.bus, x, y);
          open := false;
          break;
        }
        y := y + 1;
      }
    }

    /** One step of the ROM-size search: does the header repeat at x MiB, or is the bus open there? */
    method ProbeRomStep(read: u32, x: nat) returns (ends: bool)
      requires x < 64
      modifies port
      ensures ends == RomEndsAt(port.bus, read, x)
      ensures AppendsLatchesWithin(old(port.trace), port.trace, CartAddressStart, CartAddressStart + 64 * MiB)
      ensures port.statusMode == old(port.statusMode)
    {
      assert x * MiB <= 63 * MiB;
      port.SetAddress(CartAddressStart + x * MiB);
      var readcheck := port.Read32();
      Word32OutsideWindow(port.bus, port.status, port.statusMode, CartAddressStart + x * MiB);
      if read == readcheck {
        return true;
      }
      ghost var mid := port.trace;
      ends := ProbeOpenBusAt(x);
      AppendsLatchesTrans(old(port.trace), mid, port.trace, CartAddressStart, CartAddressStart + 64 * MiB);
    }

    /** The ROM-size search: from 4 MiB in 4 MiB steps, stop where the header repeats or the bus is open. */
    method ProbeRomSize(read: u32, prior: u32) returns (size: u32)
      modifies port
      ensures size == RomSize(port.bus, read, prior)
      ensures AppendsLatchesWithin(old(port.trace), port.trace, CartAddressStart, CartAddressStart + 64 * MiB)
      ensures port.statusMode == old(port.statusMode)
    {
      size := prior;
      var x := 4;
      while x < 64
        invariant 4 <= x <= 64 && x % 4 == 0 && size == prior
        invariant forall z :: 4 <= z < x && z % 4 == 0 ==> !RomEndsAt(port.bus, read, z)
        invariant AppendsLatchesWithin(old(port.trace), port.trace, CartAddressStart, CartAddressStart + 64 * MiB)
        invariant port.statusMode == old(port.statusMode)
      {
        ghost var before := port.trace;
        var ends := ProbeRomStep(read, x);
        AppendsLatchesTrans(old(port.trace), before, port.trace, CartAddressStart, CartAddressStart + 64 * MiB);
        if ends {
          assert x * MiB <= 63 * MiB;
          size := x * MiB;
          break;
        }
        x := x + 4;
      }
      RomSizeOfSearch(port.bus, read, prior, x);
    }

    /**
     * The FlashRAM identify command and status read; a known chip is put back
     * into read mode, anything else is left in status mode.
     */
    method IdentifyFlash() returns (ftype: u8, present: bool)
      modifies port
      ensures ftype == FlashTypeOf(port.status) && present == FlashIdentified(port.status)
      ensures port.trace == old(port.trace) + IdentifyOps() + (if present then ReadModeOps() else [])
      ensures port.statusMode == !present
    {
      port.SetAddress(FlashCommandAddress);
      port.Write32(StatusCommand);
      port.SetAddress(SramAddressStart);
      var status0 := port.Read32();
      var status1 := port.Read32();
      ftype := status1 % 0x100;
      present := status0 == FlashStatusWord && KnownFlashType(ftype);
      if present {
        port.SetAddress(FlashCommandAddress);
        port.Write32(ReadArrayCommand);
      }
    }

    /** The open-bus check of the SRAM window, read in the chip's current mode. */
    method ProbeSramOpenBus() returns (open: bool)
      modifies port
      ensures open == SramOpenBus(port.View())
      ensures AppendsLatchesWithin(old(port.trace), port.trace, SramAddressStart, SramAddressStart + 512)
      ensures port.statusMode == old(port.statusMode)
    {
      open := true;
      var i := 0;
      while i < 256
        invariant 0 <= i <= 256 && port.statusMode == old(port.statusMode)
        invariant forall z :: 0 <= z < i ==>
          Word32At(port.View(), SramAddressStart + 2 * z) == EchoWord((SramAddressStart + 2 * z) % 0x1_0000)
        invariant AppendsLatchesWithin(old(port.trace), port.trace, SramAddressStart, SramAddressStart + 512)
      {
        ghost var before := port.trace;
        port.SetAddress(SramAddressStart + 2 * i);
        AppendsLatchesTrans(old(port.trace), before, port.trace, SramAddressStart, SramAddressStart + 512);
        var expected := EchoWord((SramAddressStart + 2 * i) % 0x1_0000);
        var readcheck := port.Read32();
        if readcheck != expected {
          open := false;
          break;
        }
        i := i + 1;
      }
    }

    /** The snapshot of the SRAM window into readarr when nothing answers there (the words are not kept). */
    method SnapshotSram()
      modifies port
      ensures port.trace == old(port.trace) + [Latch(SramAddressStart)] && port.statusMode == old(port.statusMode)
    {
      port.SetAddress(SramAddressStart);
      var words := port.ReadWords(2 * 32768, false);
    }

    /** The title (byte-swapped) and the game code from the ROM header. */
    method ReadTitleAndCode() returns (title: seq<u16>, code: seq<u16>)
      modifies port
      ensures title == FlipWords(Words(port.bus, TitleAddress, TitleWords))
      ensures code == Words(port.bus, GameCodeAddress, GameCodeWords)
      ensures port.trace == old(port.trace) + [Latch(TitleAddress), Latch(GameCodeAddress)]
      ensures port.statusMode == old(port.statusMode)
    {
      port.SetAddress(TitleAddress);
      title := port.ReadWords(TitleWords, true);
      port.SetAddress(GameCodeAddress);
      code := port.ReadWords(GameCodeWords, false);
      WordsOutsideWindow(port.bus, port.status, port.statusMode, TitleAddress, TitleWords);
      WordsOutsideWindow(port.bus, port.status, port.statusMode, GameCodeAddress, GameCodeWords);
    }

    /** The 0xFC0 bytes of boot code after the header, each word latched on its own. */
    method ReadBootCode() returns (buffer: seq<u16>)
      modifies port
      ensures buffer == Words(port.bus, BootCodeAddress, BootCodeWords)
      ensures port.trace == old(port.trace) + BootCodeLatches() && port.statusMode == old(port.statusMode)
    {
      buffer := [];
      var i := 0;
      while i < BootCodeWords
        invariant 0 <= i <= BootCodeWords && port.statusMode == old(port.statusMode)
        invariant buffer == Words(port.bus, BootCodeAddress, i)
        invariant port.trace == old(port.trace) + BootCodeLatches()[..i]
      {
        port.SetAddress(BootCodeAddress + 2 * i);
        var w := port.Read16();
        assert !InSaveWindow(BootCodeAddress + 2 * i);
        buffer := buffer + [w];
        assert BootCodeLatches()[..i + 1] == BootCodeLatches()[..i] + [Latch(BootCodeAddress + 2 * i)];
        i := i + 1;
      }
      assert BootCodeLatches()[..i] == BootCodeLatches();
    }

    /**
     * cartio_init after the pins are set up: check the ROM header, then size
     * the ROM, look for FlashRAM and SRAM, size the EEPROM, read the CIC
     * region, the title and game code, and name the CIC from the boot code's
     * CRC-32.  A header that still does not match after the second read stops
     * the firmware (its assert), and the globals keep their values.  The
     * EEPROM probe's wait must end within the clock readings given: with a
     * start time of 0 and a silent EEPROM the firmware would wait forever.
     * A silent EEPROM with a nonzero start times out and needs no FIFO word.
     * The FIFO must hold the words the probe then takes: three for the info
     * reply, and 64 more for the read of block 0 when the size is nonzero.
     * The SRAM probe runs in whatever mode the identify left the chip in.
     */
    method CartioInit(samples: seq<bool>, eeprom: EepromSession, loadedAt: nat, clock: seq<u32>) returns (ready: bool)
      requires |samples| == 4 && engine.Valid()
      requires Word32At(port.bus, CartAddressStart) == RomHeaderWord ==> InputOutcome(eeprom.rx, clock).Some?
      requires Word32At(port.bus, CartAddressStart) == RomHeaderWord && InputOutcome(eeprom.rx, clock) == Some(0) ==>
        |eeprom.rx| >= 3 && (Geometry(eeprom.rx[1]).1 != 0 ==> |eeprom.rx| >= 67)
      requires Word32At(port.bus, CartAddressStart) == RomHeaderWord ==>
        (InputOutcome(eeprom.rx, clock) != Some(0) && eeprom.eepromSize != 0 ==> |eeprom.rx| >= 65)
      modifies this, port, engine, engine.table, eeprom
      ensures engine.Valid()
      ensures ready == (Word32At(port.bus, CartAddressStart) == RomHeaderWord)
      ensures !ready ==> (romSize == old(romSize) && framPresent == old(framPresent) && sramPresent == old(sramPresent)
        && flashType == old(flashType) && cicType == old(cicType) && cicName == old(cicName)
        && gameTitle == old(gameTitle) && gameCode == old(gameCode) && port.statusMode == old(port.statusMode))
      ensures ready ==> romSize == RomSize(port.bus, RomHeaderWord, old(romSize))
      ensures ready ==> (flashType == FlashTypeOf(port.status)
        && framPresent == (if FlashIdentified(port.status) then 1 else old(framPresent)))
      ensures ready ==> port.statusMode == !FlashIdentified(port.status)
      ensures ready ==> (sramPresent ==
        if SramOpenBus(Answers(port.bus, port.status, !FlashIdentified(port.status))) then 0 else old(sramPresent))
      ensures ready ==> (eeprom.programOffset == loadedAt && eeprom.eepromSize ==
        (if InputOutcome(old(eeprom.rx), clock) == Some(0) then Geometry(old(eeprom.rx)[1]).1 else old(eeprom.eepromSize)))
      ensures ready ==> cicType == CicTypeOf(HelloNibble(samples))
      ensures ready ==> (gameTitle == FlipWords(Words(port.bus, TitleAddress, TitleWords))
        && gameCode == Words(port.bus, GameCodeAddress, GameCodeWords))
      ensures ready ==> cicName == CicName(Crc32(WordBytes(Words(port.bus, BootCodeAddress, BootCodeWords))))
    {
      var read := ReadHeader();
      if read != RomHeaderWord {
        read := ReadHeader();
      }
      if read != RomHeaderWord {
        return false;
      }
      ready := true;
      ProbeMemories(read);
      InitSaveEeprom(eeprom, loadedAt, clock);
      IdentifyCart(samples);
    }

    /** The probing part of cartio_init: ROM size, FlashRAM, SRAM. */
    method ProbeMemories(read: u32)
      modifies this, port
      ensures romSize == RomSize(port.bus, read, old(romSize))
      ensures flashType == FlashTypeOf(port.status)
      ensures framPresent == (if FlashIdentified(port.status) then 1 else old(framPresent))
      ensures port.statusMode == !FlashIdentified(port.status)
      ensures sramPresent == (if SramOpenBus(Answers(port.bus, port.status, !FlashIdentified(port.status))) then 0 else old(sramPresent))
      ensures cicType == old(cicType) && cicName == old(cicName) && gameTitle == old(gameTitle) && gameCode == old(gameCode)
    {
      romSize := ProbeRomSize(read, romSize);
      var ftype, present := IdentifyFlash();
      flashType := ftype;
      if present {
        framPresent := 1;
      }
      var open := ProbeSramOpenBus();
      if open {
        sramPresent := 0;
        SnapshotSram();
      }
    }

    /**
     * The EEPROM part of cartio_init: InitEeprom, then a read of block 0 whose
     * bytes are not kept.  The FIFO holds the words these take: after a zero
     * info reply two more, and 64 for the read when the size is then nonzero;
     * after any other reply or a timeout, the 64 only when the size was
     * already nonzero.
     */
    method InitSaveEeprom(eeprom: EepromSession, loadedAt: nat, clock: seq<u32>)
      requires InputOutcome(eeprom.rx, clock).Some?
      requires InputOutcome(eeprom.rx, clock) == Some(0) ==>
        |eeprom.rx| >= 3 && (Geometry(eeprom.rx[1]).1 != 0 ==> |eeprom.rx| >= 67)
      requires InputOutcome(eeprom.rx, clock) != Some(0) && eeprom.eepromSize != 0 ==> |eeprom.rx| >= 65
      modifies eeprom
      ensures eeprom.programOffset == loadedAt
      ensures eeprom.eepromSize ==
        (if InputOutcome(old(eeprom.rx), clock) == Some(0) then Geometry(old(eeprom.rx)[1]).1 else old(eeprom.eepromSize))
    {
      eeprom.InitEeprom(loadedAt, clock);
      var eepromBuffer := new u8[512];
      eeprom.ReadEepromData(0, eepromBuffer);
    }

    /** The identification part of cartio_init: CIC hello, title and game code, boot-code CRC. */
    method IdentifyCart(samples: seq<bool>)
      requires |samples| == 4 && engine.Valid()
      modifies this, port, engine, engine.table
      ensures engine.Valid()
      ensures cicType == CicTypeOf(HelloNibble(samples))
      ensures gameTitle == FlipWords(Words(port.bus, TitleAddress, TitleWords))
      ensures gameCode == Words(port.bus, GameCodeAddress, GameCodeWords)
      ensures cicName == CicName(Crc32(WordBytes(Words(port.bus, BootCodeAddress, BootCodeWords))))
      ensures romSize == old(romSize) && framPresent == old(framPresent) && sramPresent == old(sramPresent)
      ensures flashType == old(flashType) && port.statusMode == old(port.statusMode)
    {
      var hello := ReadCicHello(samples);
      cicType := CicTypeOf(hello);
      gameTitle, gameCode := ReadTitleAndCode();
      var bootCode := ReadBootCode();
      var crc := engine.SiCrc32(WordBytes(bootCode));
      cicName := CicName(crc);
    }

    // ---------------------------------------------------------------- save memory

    /** set_address on the command register, then write32 of the command word. */
    method SendFlashCommand(command: u32)
      modifies port
      ensures port.trace == old(port.trace) + FlashCommand(command)
      ensures port.statusMode == ModeAfter(old(port.statusMode), command)
    {
      port.SetAddress(FlashCommandAddress);
      port.Write32(command);
    }

    /**
     * The status poll after an erase or a program: identify, then read the two
     * status words.  The firmware repeats this until the first word reads
     * ready; the model takes a chip that is ready at the first poll.
     */
    method PollStatus()
      requires FlashReady(port.status)
      modifies port
      ensures port.trace == old(port.trace) + IdentifyOps() && port.statusMode
    {
      SendFlashCommand(StatusCommand);
      port.SetAddress(SramAddressStart);
      var status0 := port.Read32();
      var status1 := port.Read32();
    }

    /** FlashRamEraseBlock128B for the block holding a 128-byte chunk. */
    method EraseBlock(block: nat)
      requires block < 0x200_0000 && FlashReady(port.status)
      modifies port
      ensures port.trace == old(port.trace) + EraseOps(block) && port.statusMode
    {
      Pow2Of32();
      assert 0x200_0000 <= Pow2(32);
      OrBound(0x4B00_0000, block, 32);
      ghost var t0 := port.trace;
      SendFlashCommand(BitOr(0x4B00_0000, block));
      ghost var t1 := port.trace;
      SendFlashCommand(0x7800_0000);
      ghost var t2 := port.trace;
      SendFlashCommand(0xD200_0000);
      ghost var t3 := port.trace;
      PollStatus();
      SeqAssoc4(t0, FlashCommand(BitOr(0x4B00_0000, block)), FlashCommand(0x7800_0000), FlashCommand(0xD200_0000), IdentifyOps());
    }

    /** One word of the compare loop: read the chip's word and test it against word i of chunk x. */
    method CompareWord(buffer: seq<u8>, x: nat, flip: bool, i: nat) returns (needsErase: bool, differs: bool)
      requires |buffer| >= 512 && x < 4 && i < 64
      modifies port
      ensures needsErase == (BitAnd(ChunkWords(buffer, x, flip)[i], port.View()(old(port.address))) != ChunkWords(buffer, x, flip)[i])
      ensures differs == (ChunkWords(buffer, x, flip)[i] != port.View()(old(port.address)))
      ensures port.address == Wrap32(old(port.address) + 2) && port.trace == old(port.trace)
      ensures port.statusMode == old(port.statusMode)
    {
      var current := port.Read16();
      var wanted := PackWord(buffer[128 * x + 2 * i], buffer[128 * x + 2 * i + 1], flip);
      needsErase := BitAnd(wanted, current) != wanted;
      differs := wanted != current;
    }

    /**
     * The compare loop of FlashRamWrite512B over the 64 words at the current
     * address: stop at the first word needing an erase, and note any word that differs.
     */
    method CompareChunk(buffer: seq<u8>, x: nat, flip: bool) returns (erase: bool, write: bool)
      requires |buffer| >= 512 && x < 4
      modifies port
      ensures erase == EraseNeeded(ChunkWords(buffer, x, flip), Words(port.View(), old(port.address), 64))
      ensures write == (ChunkWords(buffer, x, flip) != Words(port.View(), old(port.address), 64))
      ensures port.trace == old(port.trace) && port.statusMode == old(port.statusMode)
    {
      ghost var nw := ChunkWords(buffer, x, flip);
      ghost var stored := Words(port.View(), port.address, 64);
      erase, write := false, false;
      ghost var first := 0;
      var i := 0;
      while i < 64
        invariant 0 <= i <= 64 && !erase
        invariant port.address == Wrap32(old(port.address) + 2 * i) && port.trace == old(port.trace)
        invariant port.statusMode == old(port.statusMode)
        invariant forall w :: 0 <= w < i ==> BitAnd(nw[w], stored[w]) == nw[w]
        invariant write ==> first < i && nw[first] != stored[first]
        invariant !write ==> forall w :: 0 <= w < i ==> nw[w] == stored[w]
      {
        ghost var at := port.address;
        var needsErase, differs := CompareWord(buffer, x, flip, i);
        WrapAdd(old(port.address) + 2 * i, 2);
        assert port.View()(at) == stored[i];
        if needsErase {
          erase, write := true, true;
          EraseImpliesDiffers(nw, stored);
          return;
        }
        if differs {
          if !write {
            first := i;
          }
          write := true;
        }
        i := i + 1;
      }
      assert !write ==> nw == stored;
    }

    /** Write mode, the 64 words of chunk x into the page buffer, the write address, execute, poll. */
    method ProgramChunk(block: nat, buffer: seq<u8>, x: nat, flip: bool)
      requires |buffer| >= 512 && x < 4
      requires block < 0x200_0000 && FlashReady(port.status)
      modifies port
      ensures port.trace == old(port.trace) + ProgramOps(block, ChunkWords(buffer, x, flip)) && port.statusMode
    {
      ghost var nw := ChunkWords(buffer, x, flip);
      SendFlashCommand(0xB400_0000);
      ghost var t1 := port.trace;
      FillPageBuffer(buffer, x, flip);
      Pow2Of32();
      assert 0x200_0000 <= Pow2(32);
      OrBound(0xA500_0000, block, 32);
      ghost var t2 := port.trace;
      SendFlashCommand(BitOr(0xA500_0000, block));
      ghost var t3 := port.trace;
      SendFlashCommand(0xD200_0000);
      ghost var t4 := port.trace;
      PollStatus();
      SeqAssoc4(old(port.trace), FlashCommand(0xB400_0000) + ([Latch(SramAddressStart)] + WriteOps(nw)),
        FlashCommand(BitOr(0xA500_0000, block)), FlashCommand(0xD200_0000), IdentifyOps());
    }

    /** The page-buffer fill: the 64 words of chunk x written from the SRAM base. */
    method FillPageBuffer(buffer: seq<u8>, x: nat, flip: bool)
      requires |buffer| >= 512 && x < 4
      modifies port
      ensures port.trace == old(port.trace) + ([Latch(SramAddressStart)] + WriteOps(ChunkWords(buffer, x, flip)))
      ensures port.statusMode == old(port.statusMode)
    {
      ghost var nw := ChunkWords(buffer, x, flip);
      port.SetAddress(SramAddressStart);
      ghost var filling := port.trace;
      var i := 0;
      while i < 64
        invariant 0 <= i <= 64
        invariant port.trace == filling + WriteOps(nw[..i]) && port.statusMode == old(port.statusMode)
      {
        port.Write16(PackWord(buffer[128 * x + 2 * i], buffer[128 * x + 2 * i + 1], flip));
        assert WriteOps(nw[..i + 1]) == WriteOps(nw[..i]) + [Store(nw[i])];
        i := i + 1;
      }
      assert nw[..i] == nw;
    }

    /**
     * One pass of FlashRamWrite512B's chunk loop.  The compare reads the
     * chip's array after the read-array command; a chunk that is erased or
     * programmed leaves the chip in status mode after its poll.
     */
    method WriteChunk(address: u32, buffer: seq<u8>, flip: bool, x: nat)
      requires |buffer| >= 512 && x < 4 && FlashReady(port.status)
      modifies port
      ensures port.trace == old(port.trace) + ChunkOps(port.bus, flashType, address, buffer, flip, x)
      ensures port.statusMode == (ChunkWords(buffer, x, flip) != StoredWords(port.bus, flashType, address, x))
    {
      var offset := StartCompare(address, x);
      ghost var t1 := port.trace;
      ghost var nw := ChunkWords(buffer, x, flip);
      ghost var stored := StoredWords(port.bus, flashType, address, x);
      var erase, write := CompareChunk(buffer, x, flip);
      assert erase == EraseNeeded(nw, stored) && write == (nw != stored);
      ChunkOpsPieces(port.bus, flashType, address, buffer, flip, x, erase, write);
      EraseImpliesDiffers(nw, stored);
      UpdateChunk(offset / 128, buffer, x, flip, erase, write);
      SeqAssoc3(old(port.trace), ReadModeOps() + [Latch(FlashReadBase(flashType, offset))],
        if erase then EraseOps(offset / 128) else [],
        if write then ProgramOps(offset / 128, nw) else []);
    }

    /** The head of a chunk pass: read-array mode, then a latch where the chip's copy of the chunk is read back. */
    method StartCompare(address: u32, x: nat) returns (offset: u32)
      modifies port
      ensures offset == ChunkOffset(address, x)
      ensures port.trace == old(port.trace) + (ReadModeOps() + [Latch(FlashReadBase(flashType, offset))])
      ensures !port.statusMode && port.View() == port.bus && port.address == FlashReadBase(flashType, offset)
    {
      offset := Wrap32(address + x * 128);
      SendFlashCommand(ReadArrayCommand);
      if flashType == HalvedReadFlashType {
        port.SetAddress(Wrap32(SramAddressStart + offset / 2));
      } else {
        port.SetAddress(Wrap32(SramAddressStart + offset));
      }
    }

    /** The tail of a chunk pass: erase the block when needed, then program it unless nothing changed. */
    method UpdateChunk(block: nat, buffer: seq<u8>, x: nat, flip: bool, erase: bool, write: bool)
      requires |buffer| >= 512 && x < 4 && block < 0x200_0000 && FlashReady(port.status)
      requires erase ==> write
      modifies port
      ensures port.trace == old(port.trace) + (if erase then EraseOps(block) else [])
        + (if write then ProgramOps(block, ChunkWords(buffer, x, flip)) else [])
      ensures port.statusMode == (write || old(port.statusMode))
    {
      ghost var t0 := port.trace;
      if erase {
        EraseBlock(block);
      }
      ghost var t1 := port.trace;
      assert t1 == t0 + (if erase then EraseOps(block) else []);
      if !erase && !write {
        return;
      }
      ProgramChunk(block, buffer, x, flip);
    }

    /** FlashRamWrite512B: the four 128-byte chunks in order, each compared, erased and programmed as needed. */
    method FlashRamWrite512B(address: u32, buffer: seq<u8>, flip: bool)
      requires |buffer| >= 512 && FlashReady(port.status)
      modifies port
      ensures port.trace == old(port.trace) + FlashWriteOps(port.bus, flashType, address, buffer, flip, 4)
      ensures port.statusMode == (ChunkWords(buffer, 3, flip) != StoredWords(port.bus, flashType, address, 3))
    {
      var x := 0;
      while x < 4
        invariant 0 <= x <= 4
        invariant port.trace == old(port.trace) + FlashWriteOps(port.bus, flashType, address, buffer, flip, x)
        invariant x > 0 ==> port.statusMode == (ChunkWords(buffer, x - 1, flip) != StoredWords(port.bus, flashType, address, x - 1))
      {
        ghost var before := port.trace;
        WriteChunk(address, buffer, flip, x);
        FlashWriteOpsStep(old(port.trace), port.bus, flashType, address, buffer, flip, x);
        x := x + 1;
      }
    }

    /** SRAMWrite512B: 256 words from the buffer, then the first two words again from the start. */
    method SramWrite512B(address: u32, buffer: seq<u8>, flip: bool)
      requires |buffer| >= 512
      modifies port
      ensures port.trace == old(port.trace) + SramWriteOps(address, buffer, flip)
      ensures port.statusMode == old(port.statusMode)
    {
      ghost var t0 := port.trace;
      port.SetAddress(address);
      WriteSramWords(buffer, flip, 256);
      assert SramWords(buffer, flip)[..256] == SramWords(buffer, flip);
      ghost var t1 := port.trace;
      assert t1 == t0 + [Latch(address)] + WriteOps(SramWords(buffer, flip));
      port.SetAddress(address);
      WriteSramWords(buffer, flip, 2);
    }

    /** One pass of SRAMWrite512B's write loop: the first n words of the buffer, each packed as the flip setting says. */
    method WriteSramWords(buffer: seq<u8>, flip: bool, n: nat)
      requires |buffer| >= 512 && n <= 256
      modifies port
      ensures port.trace == old(port.trace) + WriteOps(SramWords(buffer, flip)[..n])
      ensures port.statusMode == old(port.statusMode)
    {
      ghost var ws := SramWords(buffer, flip);
      ghost var start := port.trace;
      var i := 0;
      while i < n
        invariant 0 <= i <= n
        invariant port.trace == start + WriteOps(ws[..i]) && port.statusMode == old(port.statusMode)
      {
        port.Write16(PackWord(buffer[i * 2], buffer[i * 2 + 1], flip));
        assert WriteOps(ws[..i + 1]) == WriteOps(ws[..i]) + [Store(ws[i])];
        i := i + 1;
      }
    }

    /** n read16 calls into buffer[start..start + n], each passed through flip16 when flip is set. */
    method ReadInto(buffer: array<u16>, start: nat, n: nat, flip: bool)
      requires start + n <= buffer.Length
      modifies port, buffer
      ensures buffer[start..start + n] == Oriented(Words(port.View(), old(port.address), n), flip)
      ensures buffer[..start] == old(buffer[..start]) && buffer[start + n..] == old(buffer[start + n..])
      ensures port.address == Wrap32(old(port.address) + 2 * n) && port.trace == old(port.trace)
      ensures port.statusMode == old(port.statusMode)
    {
      ghost var want := Oriented(Words(port.View(), port.address, n), flip);
      var i := 0;
      while i < n
        invariant 0 <= i <= n
        invariant port.address == Wrap32(old(port.address) + 2 * i) && port.trace == old(port.trace)
        invariant port.statusMode == old(port.statusMode)
        invariant forall k :: 0 <= k < i ==> buffer[start + k] == want[k]
        invariant forall k :: 0 <= k < buffer.Length && !(start <= k < start + i) ==> buffer[k] == old(buffer[k])
      {
        var w := port.Read16();
        WrapAdd(old(port.address) + 2 * i, 2);
        buffer[start + i] := if flip then Flip16(w) else w;
        i := i + 1;
      }
    }

    /** One chunk of FlashRamRead512B: the chunk's read-back address, then 64 words into buffer[64 * x..]. */
    method ReadChunk(address: u32, buffer: array<u16>, flip: bool, x: nat)
      requires buffer.Length >= 256 && x < 4
      modifies port, buffer
      ensures buffer[64 * x..64 * x + 64] == FlashReadWords(port.View(), flashType, address, flip)[64 * x..64 * x + 64]
      ensures buffer[..64 * x] == old(buffer[..64 * x]) && buffer[64 * x + 64..] == old(buffer[64 * x + 64..])
      ensures port.trace == old(port.trace) + [Latch(FlashReadBase(flashType, ChunkOffset(address, x)))]
      ensures port.statusMode == old(port.statusMode)
    {
      var offset := Wrap32(address + x * 128);
      assert offset == ChunkOffset(address, x);
      if flashType == HalvedReadFlashType {
        port.SetAddress(Wrap32(SramAddressStart + offset / 2));
      } else {
        port.SetAddress(Wrap32(SramAddressStart + offset));
      }
      assert port.address == FlashReadBase(flashType, offset);
      assert Words(port.View(), port.address, 64) == StoredWords(port.View(), flashType, address, x);
      ReadInto(buffer, 64 * x, 64, flip);
      FlashReadChunk(port.View(), flashType, address, flip, x);
    }

    /** FlashRamRead512B: read mode, then 64 words of the chip's array from each chunk's read-back address. */
    method FlashRamRead512B(address: u32, buffer: array<u16>, flip: bool)
      requires buffer.Length >= 256
      modifies port, buffer
      ensures buffer[..256] == FlashReadWords(port.bus, flashType, address, flip)
      ensures buffer[256..] == old(buffer[256..])
      ensures port.trace == old(port.trace) + FlashReadOps(flashType, address) && !port.statusMode
    {
      ghost var all := FlashReadWords(port.bus, flashType, address, flip);
      SendFlashCommand(ReadArrayCommand);
      var x := 0;
      while x < 4
        invariant 0 <= x <= 4 && !port.statusMode
        invariant buffer[..64 * x] == all[..64 * x] && buffer[256..] == old(buffer[256..])
        invariant port.trace == old(port.trace) + FlashReadOps(flashType, address)[..3 + x]
      {
        ghost var t := port.trace;
        ReadChunk(address, buffer, flip, x);
        FlashReadOpsStep(flashType, address, x);
        assert buffer[..64 * (x + 1)] == buffer[..64 * x] + buffer[64 * x..64 * x + 64];
        assert all[..64 * (x + 1)] == all[..64 * x] + all[64 * x..64 * x + 64];
        assert buffer[256..] == buffer[64 * x + 64..][256 - (64 * x + 64)..];
        x := x + 1;
      }
      assert FlashReadOps(flashType, address)[..7] == FlashReadOps(flashType, address);
    }

    /** SRAMRead512B: 256 words from the SRAM window at the given offset. */
    method SramRead512B(address: u32, buffer: array<u16>, flip: bool)
      requires buffer.Length >= 256
      modifies port, buffer
      ensures buffer[..256] == SramReadWords(port.View(), address, flip)
      ensures buffer[256..] == old(buffer[256..])
      ensures port.trace == old(port.trace) + [Latch(Wrap32(address + SramAddressStart))]
      ensures port.statusMode == old(port.statusMode)
    {
      port.SetAddress(Wrap32(address + SramAddressStart));
      ReadInto(buffer, 0, 256, flip);
    }
  }
}
