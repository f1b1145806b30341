/*
 * What each block of the virtual disk reads as: the buffer the read
 * callback leaves behind, the bus operations it performs, the EEPROM
 * answers it consumes and the value it returns, all as functions of the
 * block number, the buffer's prior contents and the cartridge facts.
 */
module VirtualDiskSectors {
  import opened Bytes
  import opened CartTypes
  import opened CartBus
  import opened CartProbe
  import opened CartSave
  import opened JoybusCodec
  import opened Joybus
  import opened VirtualDiskLayout
  import opened VirtualDiskReport

  /** Everything a read depends on besides the block number and the buffer. */
  datatype DiskFacts = DiskFacts(
    bus: u32 -> u16,
    status: u32 -> u16,
    statusMode: bool,
    framPresent: u32,
    sramPresent: u32,
    eepromSize: u32,
    romSize: u32,
    cicType: u32,
    cicName: string,
    title: seq<u16>,
    code: seq<u16>,
    rx: seq<u32>)

  /** The serial number msc_get_serial_number32 returns: the stored one once set, else the current time. */
  function SerialFor(valid: bool, stored: u32, now: u32): u32
  {
    if valid then stored else now
  }

  /** The report strings of the text file. */
  function ReportOf(f: DiskFacts): CartReport
  {
    CartReport(EepromText(f.eepromSize), PresentText(f.sramPresent), PresentText(f.framPresent),
               CicText(f.cicType), f.cicName, f.romSize / 0x10_0000, f.title, f.code)
  }

  /** The bus address of a data block in a ROM window, and in a save window. */
  function RomBusAddress(cluster: nat, offset: nat): u32
  {
    Wrap32(RegionAddress(cluster, offset) + CartAddressStart)
  }

  /** What the cartridge answers when the read starts, in the mode its FlashRAM chip is in. */
  function CartAnswers(f: DiskFacts): u32 -> u16
  {
    Answers(f.bus, f.status, f.statusMode)
  }

  /** Whether reading a data cluster first sends the read-array command: a save window read with FlashRAM present. */
  predicate SendsReadArray(cluster: nat, f: DiskFacts)
  {
    (SourceOf(cluster) == Save || SourceOf(cluster) == SaveFlipped) && f.framPresent != 0
  }

  /** What a save read sees: the chip's array after the read-array command, or else the answers in the current mode. */
  function SaveAnswers(f: DiskFacts): (view: u32 -> u16)
    ensures f.framPresent != 0 ==> view == f.bus
    ensures f.framPresent == 0 ==> view == CartAnswers(f)
  {
    Answers(f.bus, f.status, f.statusMode && f.framPresent == 0)
  }

  /** The EEPROM block number ReadEepromData is given: the region address over 64. */
  function EepromBlockOffset(cluster: nat, offset: nat): u32
  {
    RegionAddress(cluster, offset) / 64
  }

  /** Whether a data cluster reads the EEPROM. */
  predicate ReadsEeprom(cluster: nat)
  {
    SourceOf(cluster) == Eeprom || SourceOf(cluster) == EepromFlipped
  }

  /** The buffer after ReadEepromData: 64 answer bytes, or nothing at all without an EEPROM. */
  function EepromBytes(prior: seq<u8>, rx: seq<u32>, eepromSize: u32): (bs: seq<u8>)
    requires |prior| >= 64
    requires eepromSize != 0 ==> |rx| >= 64
    ensures |bs| == |prior|
    ensures forall k :: 64 <= k < |prior| ==> bs[k] == prior[k]
  {
    if eepromSize == 0 then prior else LowBytes(rx[..64]) + prior[64..]
  }

  /** The ROM image: n consecutive words from the given bus address, in the host's byte order. */
  function RomBytes(bus: u32 -> u16, address: u32, n: nat): (bs: seq<u8>)
    ensures |bs| == 2 * n
  {
    WordBytes(Words(bus, address, n))
  }

  /** The buffer after a data block is read. */
  function DataImage(cluster: nat, offset: nat, prior: seq<u8>, f: DiskFacts): (bs: seq<u8>)
    requires |prior| >= SectorSize && (SourceOf(cluster) == Rom ==> |prior| % SectorSize == 0)
    requires ReadsEeprom(cluster) && f.eepromSize != 0 ==> |f.rx| >= 64
    ensures |bs| == |prior|
  {
    match SourceOf(cluster)
    case CartTest => (if offset == 0 then ReportBlock(ReportOf(f)) else Zeros(512)) + prior[512..]
    case EepromFlipped => SwapPairs(EepromBytes(prior, f.rx, f.eepromSize)[..512]) + prior[512..]
    case SaveFlipped => WordBytes(SramReadWords(SaveAnswers(f), RegionAddress(cluster, offset), true)) + prior[512..]
    case RomFlipped => WordBytes(FlipWords(Words(CartAnswers(f), RomBusAddress(cluster, offset), 256))) + prior[512..]
    case Rom => RomBytes(CartAnswers(f), RomBusAddress(cluster, offset), 256 * (|prior| / SectorSize))
    case Save => WordBytes(SramReadWords(SaveAnswers(f), RegionAddress(cluster, offset), false)) + prior[512..]
    case Eeprom => EepromBytes(prior, f.rx, f.eepromSize)
  }

  /** One address latch per 512-byte step of the ROM loop. */
  function RomLatches(address: u32, n: nat): (ops: seq<BusOp>)
    ensures |ops| == n
  {
    seq(n, i requires 0 <= i < n => Latch(Wrap32(address + 512 * i)))
  }

  /** What a data read puts on the bus: latches, and the read-mode command before a save read from flash. */
  function DataOps(cluster: nat, offset: nat, len: nat, f: DiskFacts): seq<BusOp>
  {
    match SourceOf(cluster)
    case Rom => RomLatches(RomBusAddress(cluster, offset), len / 512)
    case RomFlipped => [Latch(RomBusAddress(cluster, offset))]
    case Save => (if f.framPresent != 0 then ReadModeOps() else []) + [Latch(Wrap32(RegionAddress(cluster, offset) + SramAddressStart))]
    case SaveFlipped => (if f.framPresent != 0 then ReadModeOps() else []) + [Latch(Wrap32(RegionAddress(cluster, offset) + SramAddressStart))]
    case _ => []
  }

  /** The EEPROM answers a read of block lba consumes. */
  function RxNeeded(lba: nat, eepromSize: u32): nat
  {
    var a := Classify(lba);
    if a.Data? && ReadsEeprom(a.cluster) && eepromSize != 0 then 64 else 0
  }

  /** The buffer the read callback leaves for block lba. */
  function SectorImage(lba: nat, prior: seq<u8>, f: DiskFacts, serial: u32): (bs: seq<u8>)
    requires |prior| >= SectorSize
    requires Classify(lba).Data? && SourceOf(Classify(lba).cluster) == Rom ==> |prior| % SectorSize == 0
    requires |f.rx| >= RxNeeded(lba, f.eepromSize)
    ensures |bs| == |prior|
  {
    match Classify(lba)
    case MasterBootRecord => MbrImage(|prior|, serial)
    case BootRecord => BootImage(|prior|, serial)
    case Fat(_, sector) => FatImage(sector, prior)
    case RootDirectory(sector) => RootImage(sector, |prior|, f.eepromSize, f.romSize)
    case Data(cluster, offset) => DataImage(cluster, offset, prior, f)
  }

  /** The bus operations of a read of block lba. */
  function SectorOps(lba: nat, len: nat, f: DiskFacts): seq<BusOp>
  {
    var a := Classify(lba);
    if a.Data? then DataOps(a.cluster, a.offset, len, f) else []
  }

  /** The chip's mode after a read of block lba: array mode after a FlashRAM save read, otherwise unchanged. */
  function ModeAfterRead(lba: nat, f: DiskFacts): bool
  {
    var a := Classify(lba);
    f.statusMode && !(a.Data? && SendsReadArray(a.cluster, f))
  }

  /** The value the read callback returns: the whole buffer for the ROM window, one sector otherwise. */
  function SectorWritten(lba: nat, len: nat): nat
  {
    var a := Classify(lba);
    if a.Data? && SourceOf(a.cluster) == Rom then len else SectorSize
  }

  /** The EEPROM block number of a read of block lba (meaningful only when it reads the EEPROM). */
  function SectorEepromOffset(lba: nat): u32
  {
    var a := Classify(lba);
    if a.Data? then EepromBlockOffset(a.cluster, a.offset) else 0
  }

  // ------------------------------------------------------------------ lemmas

  /** A block before the data area touches neither bus nor link and returns one sector. */
  lemma MetadataSector(lba: nat, len: nat, f: DiskFacts)
    requires lba < FirstDataLba
    ensures SectorOps(lba, len, f) == [] && ModeAfterRead(lba, f) == f.statusMode
    ensures SectorWritten(lba, len) == SectorSize && RxNeeded(lba, f.eepromSize) == 0
  {
    assert !Classify(lba).Data?;
  }

  /** A block of the data area reads as the block `offset` of its cluster's window. */
  lemma DataSector(lba: nat, cluster: nat, offset: nat, prior: seq<u8>, f: DiskFacts, serial: u32)
    requires Classify(lba) == Data(cluster, offset)
    requires |prior| >= SectorSize && (SourceOf(cluster) == Rom ==> |prior| % SectorSize == 0)
    requires |f.rx| >= RxNeeded(lba, f.eepromSize)
    ensures SectorOps(lba, |prior|, f) == DataOps(cluster, offset, |prior|, f)
    ensures ModeAfterRead(lba, f) == (f.statusMode && !SendsReadArray(cluster, f))
    ensures SectorWritten(lba, |prior|) == if SourceOf(cluster) == Rom then |prior| else SectorSize
    ensures RxNeeded(lba, f.eepromSize) == if ReadsEeprom(cluster) && f.eepromSize != 0 then 64 else 0
    ensures SectorEepromOffset(lba) == EepromBlockOffset(cluster, offset)
    ensures SectorImage(lba, prior, f, serial) == DataImage(cluster, offset, prior, f)
  {
  }

  /** The second FAT reads exactly as the first. */
  lemma FatMirror(sector: nat, prior: seq<u8>, f: DiskFacts, serial: u32)
    requires sector < SectorsPerFat && |prior| >= SectorSize
    ensures SectorImage(FirstFatLba + SectorsPerFat + sector, prior, f, serial) == SectorImage(FirstFatLba + sector, prior, f, serial)
  {
    FatCopiesAgree(FirstFatLba + sector, prior);
  }

  /** Word x of a FAT block, read as the host reads a little-endian uint16_t, is FAT entry 256 * sector + x. */
  lemma FatBlockWords(lba: nat, x: nat, prior: seq<u8>, f: DiskFacts, serial: u32)
    requires Classify(lba).Fat? && |prior| >= SectorSize
    requires x < FatWordCount(Classify(lba).sector)
    ensures Le16At(SectorImage(lba, prior, f, serial), 2 * x) == FatEntry(256 * Classify(lba).sector + x)
  {
    var s := Classify(lba).sector;
    var w := FatEntry(256 * s + x);
    var img := SectorImage(lba, prior, f, serial);
    assert img == FatImage(s, prior);
    EvenOdd(x);
    assert img[2 * x] == FatByte(s, 2 * x, prior) == Lo(w);
    assert img[2 * x + 1] == FatByte(s, 2 * x + 1, prior) == Hi(w);
  }

  /** The two bytes of word x sit at 2x and 2x + 1. */
  lemma EvenOdd(x: nat)
    ensures (2 * x) / 2 == x && (2 * x) % 2 == 0
    ensures (2 * x + 1) / 2 == x && (2 * x + 1) % 2 == 1
  {
  }

  /** FAT sector 16 keeps the buffer's bytes past its thirteen entries; sectors after it are all zero. */
  lemma FatTail(lba: nat, prior: seq<u8>, f: DiskFacts, serial: u32)
    requires Classify(lba).Fat? && |prior| >= SectorSize
    ensures Classify(lba).sector == 16 ==> SectorImage(lba, prior, f, serial)[26..] == prior[26..]
    ensures Classify(lba).sector > 16 ==> SectorImage(lba, prior, f, serial) == Zeros(|prior|)
  {
  }

  /** Directory block 0 holds the eight entries of RootEntries, one per 32 bytes. */
  lemma RootBlockEntries(lba: nat, i: nat, prior: seq<u8>, f: DiskFacts, serial: u32)
    requires Classify(lba) == RootDirectory(0) && |prior| >= SectorSize && i < 8
    ensures SectorImage(lba, prior, f, serial)[32 * i..32 * i + 32] == DirEntryBytes(RootEntries(f.eepromSize, f.romSize)[i])
  {
    assert SectorImage(lba, prior, f, serial) == RootImage(0, |prior|, f.eepromSize, f.romSize);
    RootImageEntries(i, |prior|, f.eepromSize, f.romSize);
  }

  /** Past the eight entries a directory block is zero, and directory blocks after the first are zero throughout. */
  lemma RootBlockZeros(lba: nat, prior: seq<u8>, f: DiskFacts, serial: u32)
    requires Classify(lba).RootDirectory? && |prior| >= SectorSize
    ensures SectorImage(lba, prior, f, serial)[256..] == Zeros(|prior| - 256)
    ensures Classify(lba).sector != 0 ==> SectorImage(lba, prior, f, serial) == Zeros(|prior|)
  {
  }

  /**
   * Following a file from its directory entry: every block of every cluster
   * in the file's chain lies in the data area and is served from the file's
   * own window, at the byte offset of that block within the window.
   */
  lemma FileBlocksReadTheirWindow(s: Source, fatCluster: nat, offset: nat)
    requires FirstFatCluster(s) <= fatCluster < FirstFatCluster(s) + RegionClusters(s) && offset < SectorsPerCluster
    ensures var lba := FirstDataLba + (fatCluster - 2) * SectorsPerCluster + offset;
      && Classify(lba) == Data(fatCluster - 2, offset)
      && SourceOf(fatCluster - 2) == s
      && (s != Eeprom ==> RegionAddress(fatCluster - 2, offset) == (fatCluster - FirstFatCluster(s)) * ClusterSize + offset * SectorSize)
  {
    var lba := FirstDataLba + (fatCluster - 2) * SectorsPerCluster + offset;
    AreaRoundTrip(Data(fatCluster - 2, offset));
    SourceOfRegion(s, fatCluster - 2);
    if s != Eeprom {
      RegionAddressInWindow(s, fatCluster - 2, offset);
    }
  }

  /**
   * The byte-flipped ROM file holds the cartridge's bytes in their own order:
   * byte 2i of a block is the high (first) byte of the i-th ROM word read,
   * byte 2i+1 its low byte.  The plain ROM file holds them pair-swapped.
   */
  lemma RomFileByteOrder(lba: nat, i: nat, prior: seq<u8>, f: DiskFacts, serial: u32)
    requires Classify(lba).Data? && |prior| >= SectorSize && i < 256
    requires SourceOf(Classify(lba).cluster) == Rom ==> |prior| % SectorSize == 0
    requires SourceOf(Classify(lba).cluster) == Rom || SourceOf(Classify(lba).cluster) == RomFlipped
    ensures var a := Classify(lba);
      var img := SectorImage(lba, prior, f, serial);
      var w := CartAnswers(f)(Wrap32(RomBusAddress(a.cluster, a.offset) + 2 * i));
      && (SourceOf(a.cluster) == RomFlipped ==> img[2 * i] == Hi(w) && img[2 * i + 1] == Lo(w))
      && (SourceOf(a.cluster) == Rom ==> img[2 * i] == Lo(w) && img[2 * i + 1] == Hi(w))
  {
    var a := Classify(lba);
    assert SectorImage(lba, prior, f, serial) == DataImage(a.cluster, a.offset, prior, f);
    if SourceOf(a.cluster) == Rom {
      RomBlockBytes(a.cluster, a.offset, prior, f, i);
    } else {
      RomFlippedBlockBytes(a.cluster, a.offset, prior, f, i);
    }
  }

  /** Bytes 2i and 2i+1 of a plain ROM block: the i-th word, low byte first. */
  lemma RomBlockBytes(cluster: nat, offset: nat, prior: seq<u8>, f: DiskFacts, i: nat)
    requires SourceOf(cluster) == Rom && |prior| >= SectorSize && |prior| % SectorSize == 0 && i < 256
    ensures var w := CartAnswers(f)(Wrap32(RomBusAddress(cluster, offset) + 2 * i));
      var img := DataImage(cluster, offset, prior, f);
      img[2 * i] == Lo(w) && img[2 * i + 1] == Hi(w)
  {
    var n := 256 * (|prior| / SectorSize);
    var ws := Words(CartAnswers(f), RomBusAddress(cluster, offset), n);
    assert DataImage(cluster, offset, prior, f) == WordBytes(ws) && i < n;
    WordBytesAt(ws, i);
  }

  /** Bytes 2i and 2i+1 of a flipped ROM block: the i-th word, high byte first. */
  lemma RomFlippedBlockBytes(cluster: nat, offset: nat, prior: seq<u8>, f: DiskFacts, i: nat)
    requires SourceOf(cluster) == RomFlipped && |prior| >= SectorSize && i < 256
    ensures var w := CartAnswers(f)(Wrap32(RomBusAddress(cluster, offset) + 2 * i));
      var img := DataImage(cluster, offset, prior, f);
      img[2 * i] == Hi(w) && img[2 * i + 1] == Lo(w)
  {
    var ws := FlipWords(Words(CartAnswers(f), RomBusAddress(cluster, offset), 256));
    assert DataImage(cluster, offset, prior, f) == WordBytes(ws) + prior[512..];
    WordBytesAt(ws, i);
    assert WordBytes(ws)[2 * i] == Hi(Words(CartAnswers(f), RomBusAddress(cluster, offset), 256)[i]);
  }

  /**
   * The text file's first block holds the rendered report followed by zeros;
   * its other blocks read as zeros.  With the firmware's strings the report
   * fits in the block.
   */
  lemma CartTestBlocks(lba: nat, prior: seq<u8>, f: DiskFacts, serial: u32)
    requires Classify(lba).Data? && SourceOf(Classify(lba).cluster) == CartTest && |prior| >= SectorSize
    requires |f.cicName| <= 16 && |f.title| <= 0x16
    ensures SectorImage(lba, prior, f, serial)[512..] == prior[512..]
    ensures Classify(lba).offset != 0 ==> SectorImage(lba, prior, f, serial)[..512] == Zeros(512)
    ensures Classify(lba).offset == 0 ==>
      var t := ReportText(ReportOf(f));
      |t| < 512 && SectorImage(lba, prior, f, serial)[..512] == t + Zeros(512 - |t|)
  {
    ReportStringsShort(f.eepromSize, f.sramPresent, f.cicType);
    ReportStringsShort(f.eepromSize, f.framPresent, f.cicType);
    ReportFits(ReportOf(f));
  }

  /** The two MBR-like blocks share the partition entry, the signature and the serial, which is the boot record's volume serial. */
  lemma RecordBlocks(prior: seq<u8>, f: DiskFacts, serial: u32)
    requires |prior| >= SectorSize
    ensures SectorImage(0, prior, f, serial)[450..461] == SectorImage(1, prior, f, serial)[450..461] == PartitionRecord()
    ensures SectorImage(0, prior, f, serial)[510..512] == SectorImage(1, prior, f, serial)[510..512] == [0x55, 0xAA]
    ensures SectorImage(0, prior, f, serial)[0x1B8..0x1BC] == SectorImage(1, prior, f, serial)[0x27..0x2B] == LeBytes32(serial)
  {
    RecordSectorsAgree(|prior|, serial);
  }
}
