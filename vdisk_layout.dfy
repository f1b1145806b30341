/*
 * The layout of the virtual FAT16 volume the firmware shows over USB mass
 * storage: the geometry constants, the master boot record and boot sector,
 * the file allocation table, the root directory and the mapping of data
 * clusters onto the cartridge's memories.  Everything here is a pure function
 * of the sector number and of the cartridge facts found at start-up; the
 * imperative sector builder in VirtualDisk is proved against it.
 */
module VirtualDiskLayout {
  import opened Bytes

  // ---------------------------------------------------------------- geometry

  const SectorSize: nat := 512
  const VolumeSize: nat := 0x1000_0000
  /** SECTOR_COUNT, VOLUME_SIZE / SECTOR_SIZE. */
  const SectorCount: nat := 524288
  /** DISK_BLOCK_NUM: the number of blocks reported to the host. */
  const DiskBlockNum: nat := SectorCount
  const ClusterSize: nat := 32768
  const ClusterShift: nat := 6
  /** CLUSTER_COUNT, VOLUME_SIZE / CLUSTER_SIZE. */
  const ClusterCount: nat := 8192
  /** One sector goes to the partition table, the rest to the volume. */
  const VolumeSectorCount: nat := 524287
  const FatCount: nat := 2
  const MaxRootDirectoryEntries: nat := 512
  /** ROOT_DIRECTORY_SECTORS, 32-byte entries in 512-byte sectors. */
  const RootDirectorySectors: nat := 32
  /** SECTORS_PER_FAT, two bytes per cluster rounded up to whole sectors as the macro computes it. */
  const SectorsPerFat: nat := 33
  const MediaType: u8 := 0xF8
  const PartitionTypeFat16Lba: u8 := 0x0E

  const MbrOffsetSerialNumber: nat := 0x1B8
  const BootOffsetSerialNumber: nat := 0x27
  const BootOffsetLabel: nat := 0x2B
  /** The partition table sits 64 + 2 bytes before the end of the sector. */
  const PartitionTableOffset: nat := 446

  const AttrReadOnly: u8 := 0x01
  const AttrVolumeLabel: u8 := 0x08
  const AttrArchive: u8 := 0x20

  /** The geometry macros evaluate to the constants above, and their compile-time checks hold. */
  lemma GeometryFacts()
    ensures VolumeSize == 256 * 1024 * 1024 && SectorCount == VolumeSize / SectorSize
    ensures ClusterCount == VolumeSize / ClusterSize && VolumeSectorCount == SectorCount - 1
    ensures RootDirectorySectors == MaxRootDirectoryEntries * 32 / SectorSize
    ensures SectorsPerFat == 2 * (ClusterCount + SectorSize - 1) / SectorSize
    ensures PartitionTableOffset == SectorSize - 2 - 64
    ensures ClusterSize == SectorSize * Pow2(ClusterShift)
    ensures ClusterCount <= 65526 && SectorsPerFat < 65536
    ensures VolumeSize >= 16 * 1024 * 1024 && VolumeSectorCount < 0x100_0000
  {
    assert Pow2(6) == 64;
  }

  // ------------------------------------------------------- cartridge regions

  const EepromSize: nat := 32 * 1024
  const FlashRamSize: nat := 128 * 1024
  const N64RomSize: nat := 64 * 1024 * 1024

  const EepromClusterStart: nat := 0
  const FlashRamClusterStart: nat := EepromClusterStart + EepromSize / ClusterSize
  const N64RomClusterStart: nat := FlashRamClusterStart + FlashRamSize / ClusterSize
  const Z64RomClusterStart: nat := N64RomClusterStart + N64RomSize / ClusterSize
  const FlashRamFlipClusterStart: nat := Z64RomClusterStart + N64RomSize / ClusterSize
  const EepromFlipClusterStart: nat := FlashRamFlipClusterStart + FlashRamSize / ClusterSize
  const CartTestClusterStart: nat := EepromFlipClusterStart + EepromSize / ClusterSize

  /** The seven windows of the data area, in the order the directory lists them. */
  datatype Source = Eeprom | Save | Rom | RomFlipped | SaveFlipped | EepromFlipped | CartTest

  /** The data cluster (counted from the start of the data area) where each window begins. */
  function RegionStart(s: Source): nat
  {
    match s
    case Eeprom => EepromClusterStart
    case Save => FlashRamClusterStart
    case Rom => N64RomClusterStart
    case RomFlipped => Z64RomClusterStart
    case SaveFlipped => FlashRamFlipClusterStart
    case EepromFlipped => EepromFlipClusterStart
    case CartTest => CartTestClusterStart
  }

  /** How many clusters each window spans; the text file gets one. */
  function RegionClusters(s: Source): nat
  {
    match s
    case Eeprom => EepromSize / ClusterSize
    case Save => FlashRamSize / ClusterSize
    case Rom => N64RomSize / ClusterSize
    case RomFlipped => N64RomSize / ClusterSize
    case SaveFlipped => FlashRamSize / ClusterSize
    case EepromFlipped => EepromSize / ClusterSize
    case CartTest => 1
  }

  /** The window a data cluster is served from: the tests of the read callback, in their order. */
  function SourceOf(cluster: nat): Source
  {
    if cluster == CartTestClusterStart then CartTest
    else if cluster == EepromFlipClusterStart then EepromFlipped
    else if cluster >= FlashRamFlipClusterStart then SaveFlipped
    else if cluster >= Z64RomClusterStart then RomFlipped
    else if cluster >= N64RomClusterStart then Rom
    else if cluster >= FlashRamClusterStart then Save
    else Eeprom
  }

  /** The windows follow each other without gaps: each starts where the one before it ends. */
  lemma RegionsAreContiguous()
    ensures RegionStart(Eeprom) == 0
    ensures RegionStart(Save) == RegionStart(Eeprom) + RegionClusters(Eeprom)
    ensures RegionStart(Rom) == RegionStart(Save) + RegionClusters(Save)
    ensures RegionStart(RomFlipped) == RegionStart(Rom) + RegionClusters(Rom)
    ensures RegionStart(SaveFlipped) == RegionStart(RomFlipped) + RegionClusters(RomFlipped)
    ensures RegionStart(EepromFlipped) == RegionStart(SaveFlipped) + RegionClusters(SaveFlipped)
    ensures RegionStart(CartTest) == RegionStart(EepromFlipped) + RegionClusters(EepromFlipped)
  {
  }

  /** Every cluster of a window is dispatched to that window, and the dispatch is total. */
  lemma SourceOfRegion(s: Source, cluster: nat)
    requires RegionStart(s) <= cluster < RegionStart(s) + RegionClusters(s)
    ensures SourceOf(cluster) == s
  {
  }

  /** Clusters past the text file fall into the last >= test and read the flipped save window. */
  lemma BeyondTextIsFlippedSave(cluster: nat)
    requires cluster > CartTestClusterStart
    ensures SourceOf(cluster) == SaveFlipped
  {
  }

  /**
   * The cluster each branch subtracts before scaling to a byte address.  The
   * EEPROM branch subtracts the save window's start, as written.
   */
  function AddressBase(s: Source): nat
  {
    if s == Eeprom then FlashRamClusterStart else RegionStart(s)
  }

  /** `((uint32_t)cluster - START) * CLUSTER_SIZE + offset * SECTOR_SIZE` in uint32_t arithmetic. */
  function RegionAddress(cluster: nat, offset: nat): u32
  {
    Wrap32((cluster - AddressBase(SourceOf(cluster))) * ClusterSize + offset * SectorSize)
  }

  /** Inside a window the address is the byte offset of the sector within that window. */
  lemma RegionAddressInWindow(s: Source, cluster: nat, offset: nat)
    requires s != Eeprom && RegionStart(s) <= cluster < RegionStart(s) + RegionClusters(s)
    requires offset < 64
    ensures RegionAddress(cluster, offset) == (cluster - RegionStart(s)) * ClusterSize + offset * SectorSize
    ensures RegionAddress(cluster, offset) + SectorSize <= RegionClusters(s) * ClusterSize
  {
    SourceOfRegion(s, cluster);
  }

  /** The EEPROM cluster's address wraps below zero: cluster 0 minus the save window's start 1. */
  lemma EepromAddressWraps(offset: nat)
    requires offset < 64
    ensures RegionAddress(EepromClusterStart, offset) == 0x1_0000_0000 - ClusterSize + offset * SectorSize
    ensures RegionAddress(EepromClusterStart, offset) / 64 == 0x400_0000 - 512 + 8 * offset
  {
  }

  // ----------------------------------------------------------- sector areas

  /** What a logical block of the disk holds. */
  datatype Area =
    | MasterBootRecord
    | BootRecord
    | Fat(copy: nat, sector: nat)
    | RootDirectory(sector: nat)
    | Data(cluster: nat, offset: nat)

  const FirstFatLba: nat := 2
  const FirstRootLba: nat := FirstFatLba + FatCount * SectorsPerFat
  const FirstDataLba: nat := FirstRootLba + RootDirectorySectors
  const SectorsPerCluster: nat := ClusterSize / SectorSize

  /** The area of block lba, by the ranges of the volume. */
  function Classify(lba: nat): Area
  {
    if lba == 0 then MasterBootRecord
    else if lba == 1 then BootRecord
    else if lba < FirstRootLba then Fat((lba - FirstFatLba) / SectorsPerFat, (lba - FirstFatLba) % SectorsPerFat)
    else if lba < FirstDataLba then RootDirectory(lba - FirstRootLba)
    else Data((lba - FirstDataLba) / SectorsPerCluster, (lba - FirstDataLba) % SectorsPerCluster)
  }

  predicate ValidArea(a: Area)
  {
    match a
    case Fat(copy, sector) => copy < FatCount && sector < SectorsPerFat
    case RootDirectory(sector) => sector < RootDirectorySectors
    case Data(_, offset) => offset < SectorsPerCluster
    case _ => true
  }

  /** The first block of an area: the inverse of Classify. */
  function AreaLba(a: Area): nat
  {
    match a
    case MasterBootRecord => 0
    case BootRecord => 1
    case Fat(copy, sector) => FirstFatLba + copy * SectorsPerFat + sector
    case RootDirectory(sector) => FirstRootLba + sector
    case Data(cluster, offset) => FirstDataLba + cluster * SectorsPerCluster + offset
  }

  /** Every block belongs to exactly one area, and that area gives the block back. */
  lemma ClassifyRoundTrip(lba: nat)
    ensures ValidArea(Classify(lba)) && AreaLba(Classify(lba)) == lba
  {
  }

  lemma AreaRoundTrip(a: Area)
    requires ValidArea(a)
    ensures Classify(AreaLba(a)) == a
  {
    match a
    case Fat(copy, sector) =>
      FatDivMod(AreaLba(a) - FirstFatLba, copy, sector);
    case Data(cluster, offset) =>
      ClusterDivMod(AreaLba(a) - FirstDataLba, cluster, offset);
    case _ =>
  }

  /** A block number past the first FAT block, split into a FAT copy and a block of that copy. */
  lemma FatDivMod(l: nat, copy: nat, sector: nat)
    requires sector < SectorsPerFat && l == copy * SectorsPerFat + sector
    ensures l / SectorsPerFat == copy && l % SectorsPerFat == sector
  {
  }

  /** A block number past the first data block, split into a cluster and a block of that cluster. */
  lemma ClusterDivMod(l: nat, cluster: nat, offset: nat)
    requires offset < SectorsPerCluster && l == cluster * SectorsPerCluster + offset
    ensures l / SectorsPerCluster == cluster && l % SectorsPerCluster == offset
  {
    assert SectorsPerCluster == 64;
  }

  /** The boundaries of the areas in blocks. */
  lemma AreaBoundaries()
    ensures FirstFatLba == 2 && FirstRootLba == 68 && FirstDataLba == 100 && SectorsPerCluster == 64
  {
  }

  // ---------------------------------------------------------------- bytes

  function Zeros(n: nat): (z: seq<u8>)
    ensures |z| == n && forall k :: 0 <= k < n ==> z[k] == 0
  {
    seq(n, _ => 0)
  }

  /** ASCII text as bytes. */
  function Ascii(s: string): (bs: seq<u8>)
    requires forall i :: 0 <= i < |s| ==> s[i] as int < 0x80
    ensures |bs| == |s| && forall i :: 0 <= i < |s| ==> bs[i] == s[i] as int
  {
    seq(|s|, i requires 0 <= i < |s| => s[i] as int)
  }

  /** Byte k of the little-endian image of a run of words, taken from the word it belongs to. */
  function WordByte(w: u16, k: nat): u8
  {
    if k % 2 == 0 then Lo(w) else Hi(w)
  }

  /** The little-endian 16-bit field at offset off. */
  function Le16At(bs: seq<u8>, off: nat): nat
    requires off + 2 <= |bs|
  {
    bs[off] as int + 0x100 * bs[off + 1] as int
  }

  /** The little-endian 32-bit field at offset off. */
  function Le32At(bs: seq<u8>, off: nat): nat
    requires off + 4 <= |bs|
  {
    bs[off] as int + 0x100 * bs[off + 1] as int + 0x1_0000 * bs[off + 2] as int + 0x100_0000 * bs[off + 3] as int
  }

  // ------------------------------------------------------------- boot sector

  /** Bytes 0x00 to 0x0a of boot_sector: the jump over the parameter block and the OEM name. */
  function BootJump(): (bs: seq<u8>)
    ensures |bs| == 11
  {
    [0xEB, 0x3C, 0x90, 'M' as u8, 'S' as u8, 'W' as u8, 'I' as u8, 'N' as u8, '4' as u8, '.' as u8, '1' as u8]
  }

  /**
   * Bytes 0x0b to 0x23: the BIOS parameter block.  The 16-bit sector count is
   * zero because the volume has more than 65535 sectors; the 32-bit one at
   * 0x20 holds them all, and one hidden sector is left for the MBR.
   */
  function BiosParameterBlock(): (bs: seq<u8>)
    ensures |bs| == 25
  {
    [ 0x00, 0x02,  64,  0x01, 0x00,  2,  0x00, 0x02,  0x00, 0x00,  0xF8,  33, 0x00,
      0x01, 0x00,  0x01, 0x00,  0x01, 0x00, 0x00, 0x00,  0xFF, 0xFF, 0x07, 0x00 ]
  }

  /** Bytes 0x24 to 0x2a: drive number, the clean-unmount byte, the extended boot signature and a zero serial. */
  function ExtendedBootRecord(): (bs: seq<u8>)
    ensures |bs| == 7
  {
    [0x00, 0x00, 0x29, 0x00, 0x00, 0x00, 0x00]
  }

  /** Bytes 0x2b to 0x3d: the volume label and the file-system type. */
  function VolumeLabelText(): (bs: seq<u8>)
    ensures |bs| == 19
  {
    ['D' as u8, 'r' as u8, 'e' as u8, 'a' as u8, 'm' as u8, 'D' as u8, 'u' as u8, 'm' as u8, 'p' as u8, '6' as u8, '4' as u8,
     'F' as u8, 'A' as u8, 'T' as u8, '1' as u8, '6' as u8, ' ' as u8, ' ' as u8, ' ' as u8]
  }

  /** The 64 bytes of boot_sector, ending in a `jmp $`. */
  function BootSector(): (bs: seq<u8>)
    ensures |bs| == 64
  {
    BootJump() + BiosParameterBlock() + ExtendedBootRecord() + VolumeLabelText() + [0xEB, 0xFE]
  }

  /**
   * The parameter block read at the offsets of the FAT specification
   * (BPB_BytsPerSec at 11, BPB_SecPerClus at 13, and so on) holds the volume's
   * geometry: block size, cluster size, one reserved block, two FATs of 33
   * blocks, 512 root entries, and a 16-bit sector count of zero because the
   * volume has more than 65535 sectors.
   */
  lemma BootSectorGeometry()
    ensures Le16At(BootSector(), 11) == SectorSize
    ensures BootSector()[13] == SectorsPerCluster
    ensures Le16At(BootSector(), 14) == 1
    ensures BootSector()[16] == FatCount
    ensures Le16At(BootSector(), 17) == MaxRootDirectoryEntries
    ensures Le16At(BootSector(), 19) == (if VolumeSectorCount < 65536 then VolumeSectorCount else 0)
    ensures BootSector()[21] == MediaType
    ensures Le16At(BootSector(), 22) == SectorsPerFat
  {
    assert BootSector()[11..36] == BiosParameterBlock();
  }

  /**
   * The rest of the boot sector: one hidden block before the volume, the
   * 32-bit sector count holding all of the volume's blocks, the extended boot
   * signature with a zero serial, and the closing `jmp $`.
   */
  lemma BootSectorCounts()
    ensures Le32At(BootSector(), 28) == SectorCount - VolumeSectorCount
    ensures Le32At(BootSector(), 32) == (if VolumeSectorCount >= 65536 then VolumeSectorCount else 0)
    ensures BootSector()[38] == 0x29
    ensures BootSector()[BootOffsetSerialNumber..BootOffsetSerialNumber + 4] == [0, 0, 0, 0]
    ensures BootSector()[62] == 0xEB && BootSector()[63] == 0xFE
  {
    assert BootSector()[36..43] == ExtendedBootRecord();
  }

  /** The partition entry's bytes from its type field on: FAT16 with LBA, first block 1, the rest of the disk. */
  function PartitionRecord(): (bs: seq<u8>)
    ensures |bs| == 11
  {
    [PartitionTypeFat16Lba, 0, 0, 0] + LeBytes32(1)
    + [(SectorCount - 1) % 0x100, ((SectorCount - 1) / 0x100) % 0x100, ((SectorCount - 1) / 0x1_0000) % 0x100]
  }

  /** The partition starts at the boot record and runs to the last block of the disk. */
  lemma PartitionCoversVolume()
    ensures PartitionRecord()[0] == PartitionTypeFat16Lba
    ensures Le32At(PartitionRecord(), 4) == AreaLba(BootRecord)
    ensures var r := PartitionRecord();
      r[8] as int + 0x100 * r[9] as int + 0x1_0000 * r[10] as int == VolumeSectorCount
      && AreaLba(BootRecord) + VolumeSectorCount == DiskBlockNum
    ensures Le32At(PartitionRecord(), 4) == Le32At(BootSector(), 28)
  {
    BootSectorCounts();
    assert LeBytes32(1) == [1, 0, 0, 0];
  }

  /** Byte k of the partition-table part both record sectors share: the serial at 0x1b8, the entry, the signature. */
  function MbrByte(k: nat, serial: u32): u8
  {
    if MbrOffsetSerialNumber <= k < MbrOffsetSerialNumber + 4 then LeBytes32(serial)[k - MbrOffsetSerialNumber]
    else if PartitionTableOffset + 4 <= k < PartitionTableOffset + 15 then PartitionRecord()[k - (PartitionTableOffset + 4)]
    else if k == PartitionTableOffset + 64 then 0x55
    else if k == PartitionTableOffset + 65 then 0xAA
    else 0
  }

  /** Block 0: a zeroed buffer with the partition table, the signature and the disk serial. */
  function MbrImage(len: nat, serial: u32): (bs: seq<u8>)
    ensures |bs| == len
  {
    seq(len, k requires 0 <= k < len => MbrByte(k, serial))
  }

  /** Block 1: boot_sector with the serial patched in at 0x27, over the same table, signature and serial as block 0. */
  function BootByte(k: nat, serial: u32): u8
  {
    if BootOffsetSerialNumber <= k < BootOffsetSerialNumber + 4 then LeBytes32(serial)[k - BootOffsetSerialNumber]
    else if k < |BootSector()| then BootSector()[k]
    else MbrByte(k, serial)
  }

  function BootImage(len: nat, serial: u32): (bs: seq<u8>)
    ensures |bs| == len
  {
    seq(len, k requires 0 <= k < len => BootByte(k, serial))
  }

  /**
   * Both record sectors end in the 0x55 0xAA signature, carry the same
   * partition entry and the same serial at 0x1b8, and the boot record's volume
   * serial at 0x27 is that same number.
   */
  lemma RecordSectorsAgree(len: nat, serial: u32)
    requires len >= SectorSize
    ensures MbrImage(len, serial)[510] == 0x55 && MbrImage(len, serial)[511] == 0xAA
    ensures BootImage(len, serial)[510..512] == MbrImage(len, serial)[510..512]
    ensures BootImage(len, serial)[450..461] == MbrImage(len, serial)[450..461] == PartitionRecord()
    ensures BootImage(len, serial)[0x1B8..0x1BC] == MbrImage(len, serial)[0x1B8..0x1BC] == LeBytes32(serial)
    ensures BootImage(len, serial)[0x27..0x2B] == LeBytes32(serial)
    ensures BootImage(len, serial)[..0x27] == BootSector()[..0x27]
    ensures BootImage(len, serial)[0x2B..64] == BootSector()[0x2B..]
    ensures forall k :: 64 <= k < len ==> BootImage(len, serial)[k] == MbrImage(len, serial)[k]
  {
  }

  // -------------------------------------------------------------------- FAT

  const EndOfChain: u16 := 0xFFFF
  /** The FAT entries the builder writes; later entries are zero or left as they were. */
  const FatEntriesWritten: nat := 4109

  /**
   * Entry e of the allocation table: the media descriptor in entry 0, the
   * reserved entry 1, and then one chain per file, each entry pointing at
   * the next cluster and the last one marked end-of-chain.
   */
  function FatEntry(e: nat): u16
    requires e < FatEntriesWritten
  {
    if e == 0 then 0xFF00 + MediaType
    else if e == 1 || e == 2 || e == 6 || e == 2054 || e == 4102 || e >= 4106 then EndOfChain
    else e + 1
  }

  /** A chain of n clusters starting at `first`: each entry points at the next, the last ends the chain. */
  predicate Chain(first: nat, n: nat)
    requires n >= 1 && first + n <= FatEntriesWritten
  {
    (forall e :: first <= e < first + n - 1 ==> FatEntry(e) == e + 1) && FatEntry(first + n - 1) >= 0xFFF8
  }

  /** Cluster numbers in the FAT are data clusters plus two. */
  function FirstFatCluster(s: Source): nat
  {
    RegionStart(s) + 2
  }

  /**
   * Each window's file chain starts at its first cluster plus two and runs
   * over exactly the window's clusters; the reserved entries hold the media
   * descriptor and an end mark.
   */
  lemma FileChains(s: Source)
    ensures FirstFatCluster(s) + RegionClusters(s) <= FatEntriesWritten
    ensures Chain(FirstFatCluster(s), RegionClusters(s))
    ensures FatEntry(0) == 0xFFF8 && FatEntry(1) == EndOfChain
  {
    match s
    case Eeprom => assert FirstFatCluster(s) == 2 && RegionClusters(s) == 1;
    case Save => assert FirstFatCluster(s) == 3 && RegionClusters(s) == 4;
    case Rom => assert FirstFatCluster(s) == 7 && RegionClusters(s) == 2048;
    case RomFlipped => assert FirstFatCluster(s) == 2055 && RegionClusters(s) == 2048;
    case SaveFlipped => assert FirstFatCluster(s) == 4103 && RegionClusters(s) == 4;
    case EepromFlipped => assert FirstFatCluster(s) == 4107 && RegionClusters(s) == 1;
    case CartTest => assert FirstFatCluster(s) == 4108 && RegionClusters(s) == 1;
  }

  /** The number of entries the builder writes into each FAT sector; the rest is zeroed or left alone. */
  function FatWordCount(sector: nat): nat
  {
    if sector < 16 then 256 else if sector == 16 then 13 else 0
  }

  /** FAT sectors 0 and 17 onward start from a zeroed buffer; sectors 1 to 16 write over what the buffer held. */
  predicate FatCleared(sector: nat)
  {
    sector == 0 || sector > 16
  }

  function FatByte(sector: nat, k: nat, prior: seq<u8>): u8
    requires k < |prior|
  {
    if k < 2 * FatWordCount(sector) then WordByte(FatEntry(256 * sector + k / 2), k)
    else if FatCleared(sector) then 0
    else prior[k]
  }

  /** The buffer after building FAT sector `sector` over the prior contents. */
  function FatImage(sector: nat, prior: seq<u8>): (bs: seq<u8>)
    ensures |bs| == |prior|
  {
    seq(|prior|, k requires 0 <= k < |prior| => FatByte(sector, k, prior))
  }

  /** Both copies of the FAT are identical: a block's image depends only on its sector within the copy. */
  lemma FatCopiesAgree(lba: nat, prior: seq<u8>)
    requires FirstFatLba <= lba < FirstFatLba + SectorsPerFat
    ensures Classify(lba) == Fat(0, lba - FirstFatLba)
    ensures Classify(lba + SectorsPerFat) == Fat(1, lba - FirstFatLba)
  {
  }

  // -------------------------------------------------------- root directory

  /** A 32-byte directory entry, field by field. */
  datatype DirEntry = DirEntry(
    name: seq<u8>, attr: u8, reserved: u8, creationTimeFrac: u8,
    creationTime: u16, creationDate: u16, lastAccessDate: u16, clusterHi: u16,
    lastModifiedTime: u16, lastModifiedDate: u16, clusterLo: u16, size: u32)

  /** The entry's bytes in the layout of struct dir_entry. */
  function DirEntryBytes(e: DirEntry): (bs: seq<u8>)
    requires |e.name| == 11
    ensures |bs| == 32
  {
    e.name + [e.attr, e.reserved, e.creationTimeFrac]
    + LeBytes16(e.creationTime) + LeBytes16(e.creationDate) + LeBytes16(e.lastAccessDate)
    + LeBytes16(e.clusterHi) + LeBytes16(e.lastModifiedTime) + LeBytes16(e.lastModifiedDate)
    + LeBytes16(e.clusterLo) + LeBytes32(e.size)
  }

  /** Fri, 05 Sep 2008 16:20:51, the time stamp of every file. */
  const PiTimeFrac: u8 := 100
  const PiTime: u16 := 0x8299
  const PiDate: u16 := 0x3925

  /** The packed time and date read back, in the FAT encoding (two-second resolution, years from 1980). */
  lemma TimestampDecodes()
    ensures PiTime / 0x800 == 16 && (PiTime / 0x20) % 0x40 == 20 && 2 * (PiTime % 0x20) == 50
    ensures 1980 + PiDate / 0x200 == 2008 && (PiDate / 0x20) % 0x10 == 9 && PiDate % 0x20 == 5
  {
  }

  /**
   * What init_dir_entry leaves in an entry: read-only archive, the fixed time
   * stamps, the cluster split into halves and the size; the reserved byte and
   * the access date are not written and keep what the entry held.
   */
  function FileEntry(name: seq<u8>, cluster: u32, size: u32, reserved: u8, lastAccessDate: u16): (e: DirEntry)
    requires |name| == 11
    ensures e.attr == 0x21 && e.name == name && e.size == size
  {
    DirEntry(name, AttrReadOnly + AttrArchive, reserved, PiTimeFrac, PiTime, PiDate, lastAccessDate,
             cluster / 0x1_0000, PiTime, PiDate, cluster % 0x1_0000, size)
  }

  /** The volume label entry: the label from the boot sector, attribute 0x28, all else zero. */
  function LabelEntry(): (e: DirEntry)
    ensures |e.name| == 11
  {
    DirEntry(VolumeLabelText()[..11], AttrVolumeLabel + AttrArchive, 0, 0, 0, 0, 0, 0, 0, 0, 0, 0)
  }

  /** The eleven-byte short names of the files. */
  function FileName(s: Source): (n: seq<u8>)
    ensures |n| == 11
  {
    match s
    case Eeprom => Ascii("ROM     EEP")
    case Save => Ascii("ROM     FLA")
    case Rom => Ascii("ROM     N64")
    case RomFlipped => Ascii("ROMF    Z64")
    case SaveFlipped => Ascii("ROMF    RAM")
    case EepromFlipped => Ascii("ROMF    EEP")
    case CartTest => Ascii("CARTTESTTXT")
  }

  /** The size each file advertises: the EEPROM and ROM sizes found at start-up, fixed sizes otherwise. */
  function FileSize(s: Source, eepromSize: u32, romSize: u32): u32
  {
    match s
    case Eeprom => eepromSize
    case Save => 128 * 1024
    case Rom => romSize
    case RomFlipped => romSize
    case SaveFlipped => 128 * 1024
    case EepromFlipped => eepromSize
    case CartTest => 2 * 1024
  }

  /** The files in directory order. */
  const Files: seq<Source> := [Eeprom, Save, Rom, RomFlipped, SaveFlipped, EepromFlipped, CartTest]

  /** The entry init_dir_entry writes for a file on a zeroed buffer. */
  function FileDirEntry(s: Source, eepromSize: u32, romSize: u32): (e: DirEntry)
    ensures |e.name| == 11
  {
    FileEntry(FileName(s), FirstFatCluster(s), FileSize(s, eepromSize, romSize), 0, 0)
  }

  /** The eight entries of directory sector 0: the label, then the seven files. */
  function RootEntries(eepromSize: u32, romSize: u32): (es: seq<DirEntry>)
    ensures |es| == 8 && forall i :: 0 <= i < 8 ==> |es[i].name| == 11
  {
    [ LabelEntry(),
      FileDirEntry(Eeprom, eepromSize, romSize), FileDirEntry(Save, eepromSize, romSize),
      FileDirEntry(Rom, eepromSize, romSize), FileDirEntry(RomFlipped, eepromSize, romSize),
      FileDirEntry(SaveFlipped, eepromSize, romSize), FileDirEntry(EepromFlipped, eepromSize, romSize),
      FileDirEntry(CartTest, eepromSize, romSize) ]
  }

  function RootByte(sector: nat, k: nat, eepromSize: u32, romSize: u32): u8
  {
    if sector == 0 && k < 256 then DirEntryBytes(RootEntries(eepromSize, romSize)[k / 32])[k % 32] else 0
  }

  /** Directory sector `sector`: the entries in sector 0, zeros everywhere else. */
  function RootImage(sector: nat, len: nat, eepromSize: u32, romSize: u32): (bs: seq<u8>)
    ensures |bs| == len
  {
    seq(len, k requires 0 <= k < len => RootByte(sector, k, eepromSize, romSize))
  }

  /** Directory sector 0 holds the eight entries, one per 32 bytes. */
  lemma RootImageEntries(i: nat, len: nat, eepromSize: u32, romSize: u32)
    requires i < 8 && 256 <= len
    ensures RootImage(0, len, eepromSize, romSize)[32 * i..32 * i + 32] == DirEntryBytes(RootEntries(eepromSize, romSize)[i])
  {
    var img := RootImage(0, len, eepromSize, romSize);
    EntrySlice(img, RootEntries(eepromSize, romSize), i);
  }

  /** Bytes laid out entry by entry, 32 to an entry, hold entry i at 32 * i. */
  lemma EntrySlice(bs: seq<u8>, es: seq<DirEntry>, i: nat)
    requires i < |es| && 32 * |es| <= |bs|
    requires forall m :: 0 <= m < |es| ==> |es[m].name| == 11
    requires forall k :: 0 <= k < 32 * |es| ==> bs[k] == DirEntryBytes(es[k / 32])[k % 32]
    ensures bs[32 * i..32 * i + 32] == DirEntryBytes(es[i])
  {
    forall j | 0 <= j < 32
      ensures bs[32 * i + j] == DirEntryBytes(es[i])[j]
    {
      assert (32 * i + j) / 32 == i && (32 * i + j) % 32 == j;
    }
  }

  /**
   * The cluster numbers the directory builder reaches by stepping a running
   * offset from 2 by each previous file's size in clusters (a 2 KiB EEPROM
   * file still taking one cluster).
   */
  function DirectoryClusters(): (cs: seq<nat>)
    ensures |cs| == 7
  {
    var c0 := 2;
    var c1 := c0 + 2 * 1024 / ClusterSize + 1;
    var c2 := c1 + 128 * 1024 / ClusterSize;
    var c3 := c2 + 64 * 1024 * 1024 / ClusterSize;
    var c4 := c3 + 64 * 1024 * 1024 / ClusterSize;
    var c5 := c4 + 128 * 1024 / ClusterSize;
    var c6 := c5 + 2 * 1024 / ClusterSize + 1;
    [c0, c1, c2, c3, c4, c5, c6]
  }

  /** The stepped offsets are exactly each window's first cluster plus two, in directory order. */
  lemma DirectoryClustersMatchRegions()
    ensures forall i :: 0 <= i < 7 ==> DirectoryClusters()[i] == FirstFatCluster(Files[i])
  {
    var cs := DirectoryClusters();
    assert cs == [2, 3, 7, 2055, 4103, 4107, 4108];
  }

  /**
   * Every file entry of sector 0 names its window's chain in the FAT, and the
   * size it advertises fits in that chain.
   */
  lemma DirectoryMatchesFat(s: Source, eepromSize: u32, romSize: u32)
    requires eepromSize <= 2048 && romSize <= N64RomSize
    ensures var e := FileDirEntry(s, eepromSize, romSize);
      && e.clusterHi * 0x1_0000 + e.clusterLo == FirstFatCluster(s)
      && FirstFatCluster(s) + RegionClusters(s) <= FatEntriesWritten
      && Chain(FirstFatCluster(s), RegionClusters(s))
      && e.size <= RegionClusters(s) * ClusterSize
      && e.attr == AttrReadOnly + AttrArchive
  {
    FileChains(s);
  }

  /** Sector 0 lists the label first and then the seven files in the order of Files. */
  lemma RootEntriesOrder(eepromSize: u32, romSize: u32)
    ensures RootEntries(eepromSize, romSize)[0].attr == AttrVolumeLabel + AttrArchive
    ensures RootEntries(eepromSize, romSize)[0].name == BootSector()[BootOffsetLabel..BootOffsetLabel + 11]
    ensures forall i :: 0 <= i < 7 ==> RootEntries(eepromSize, romSize)[i + 1] == FileDirEntry(Files[i], eepromSize, romSize)
  {
  }

  // ------------------------------------------------------ cart test report

  /** The values the text file's report prints: the selected strings, the ROM size in MiB, the header's title and code words. */
  datatype CartReport = CartReport(
    eeprom: string, sram: string, flashRam: string, cic: string, cicName: string,
    romSizeMiB: nat, title: seq<u16>, code: seq<u16>)

  function EepromText(eepromSize: u32): (t: string)
    ensures t == "Failed" <==> eepromSize !in {0, 0x200, 0x800}
  {
    if eepromSize == 0 then "Not present"
    else if eepromSize == 0x200 then "4K OK!"
    else if eepromSize == 0x800 then "16K OK!"
    else "Failed"
  }

  function CicText(cicType: u32): (t: string)
    ensures t == "Failed" <==> cicType !in {0, 1}
  {
    if cicType == 0xFF then "Failed"
    else if cicType == 0 then "PAL"
    else if cicType == 1 then "NTSC"
    else "Failed"
  }

  function PresentText(flag: u32): (t: string)
    ensures t == "OK!" <==> flag != 0
  {
    if flag != 0 then "OK!" else "Not present"
  }

  // ------------------------------------------------------------------ write

  /**
   * tud_msc_write10_cb: nothing is stored; blocks past the disk are refused
   * with -1, and any other write reports the buffer size converted to
   * int32_t: the int32_t value whose 32 bits are those of the size.
   */
  function Write10(lba: u32, bufsize: u32): (r: int)
    ensures lba >= DiskBlockNum ==> r == -1
    ensures lba < DiskBlockNum ==> -0x8000_0000 <= r < 0x8000_0000 && Wrap32(r) == bufsize
  {
    if lba >= DiskBlockNum then -1 else if bufsize < 0x8000_0000 then bufsize else bufsize - 0x1_0000_0000
  }
}
