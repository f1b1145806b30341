/*
 * The read and write callbacks of the mass-storage device: every block of
 * the virtual FAT16 volume is built on demand into the caller's buffer, by
 * zeroing, copying and storing 16-bit words as the host (a little-endian
 * CPU) lays them out, or by reading the cartridge.  Each builder is proved
 * to leave exactly the image VirtualDiskSectors defines.
 */
module VirtualDisk {
  import opened Bytes
  import opened CartTypes
  import opened CartBus
  import opened CartProbe
  import opened CartSave
  import opened JoybusCodec
  import opened Joybus
  import opened CartInterface
  import opened VirtualDiskLayout
  import opened VirtualDiskReport
  import opened VirtualDiskSectors

  /** boot_device_state: the disk serial number, taken from the clock on first use. */
  class BootDeviceState {
    var serialNumber32: u32
    var serialNumberValid: bool

    constructor()
      ensures !serialNumberValid && serialNumber32 == 0
    {
      serialNumber32 := 0;
      serialNumberValid := false;
    }

    /** msc_get_serial_number32: the first call fixes the serial at the current time; later calls return it unchanged. */
    method SerialNumber32(now: u32) returns (sn: u32)
      modifies this
      ensures sn == SerialFor(old(serialNumberValid), old(serialNumber32), now)
      ensures serialNumberValid && serialNumber32 == sn
      ensures old(serialNumberValid) ==> serialNumber32 == old(serialNumber32)
    {
      if !serialNumberValid {
        serialNumber32 := now;
        serialNumberValid := true;
      }
      sn := serialNumber32;
    }
  }

  // ------------------------------------------------------- buffer primitives

  /** memset(buf, 0, n). */
  method Memset(buf: array<u8>, n: nat)
    requires n <= buf.Length
    modifies buf
    ensures forall k :: 0 <= k < buf.Length ==> buf[k] == if k < n then 0 else old(buf[k])
  {
    forall k | 0 <= k < n {
      buf[k] := 0;
    }
  }

  /** memcpy(buf + at, bytes, |bytes|). */
  method CopyBytes(buf: array<u8>, at: nat, bytes: seq<u8>)
    requires at + |bytes| <= buf.Length
    modifies buf
    ensures forall k :: 0 <= k < buf.Length ==> buf[k] == if at <= k < at + |bytes| then bytes[k - at] else old(buf[k])
  {
    forall k | at <= k < at + |bytes| {
      buf[k] := bytes[k - at];
    }
  }

  /** `((uint16_t *)buf)[x] = v` on the little-endian host. */
  method StoreWord(buf: array<u8>, x: nat, v: u16)
    requires 2 * x + 1 < buf.Length
    modifies buf
    ensures forall k :: 0 <= k < buf.Length ==> buf[k] == if k == 2 * x || k == 2 * x + 1 then WordByte(v, k) else old(buf[k])
  {
    buf[2 * x] := Lo(v);
    buf[2 * x + 1] := Hi(v);
  }

  /** The FAT builder's loop `p[x] = (uint16_t)((sector * 0x100) + x + 1)` for x from `from` to `to`. */
  method StoreChain(buf: array<u8>, sector: nat, from: nat, to: nat)
    requires from <= to && 2 * to <= buf.Length
    modifies buf
    ensures forall k :: 0 <= k < buf.Length ==>
      buf[k] == if 2 * from <= k < 2 * to then WordByte((0x100 * sector + k / 2 + 1) % 0x1_0000, k) else old(buf[k])
  {
    var x := from;
    while x < to
      invariant from <= x <= to
      invariant forall k :: 0 <= k < buf.Length ==>
        buf[k] == if 2 * from <= k < 2 * x then WordByte((0x100 * sector + k / 2 + 1) % 0x1_0000, k) else old(buf[k])
    {
      StoreWord(buf, x, (0x100 * sector + x + 1) % 0x1_0000);
      x := x + 1;
    }
  }

  // ---------------------------------------------------------- record sectors

  /** Block 0: zero the buffer, write the partition entry and signature, then the serial at 0x1b8. */
  method WriteMbr(buf: array<u8>, sn: u32)
    requires buf.Length >= SectorSize
    modifies buf
    ensures buf[..] == MbrImage(buf.Length, sn)
  {
    Memset(buf, buf.Length);
    CopyBytes(buf, PartitionTableOffset + 4, PartitionRecord());
    buf[PartitionTableOffset + 64] := 0x55;
    buf[PartitionTableOffset + 65] := 0xAA;
    CopyBytes(buf, MbrOffsetSerialNumber, LeBytes32(sn));
    forall k | 0 <= k < buf.Length
      ensures buf[k] == MbrByte(k, sn)
    {
    }
  }

  /** Block 1: zero the buffer, boot_sector with the serial at 0x27, then the same table, signature and serial as block 0. */
  method WriteBootRecord(buf: array<u8>, sn: u32)
    requires buf.Length >= SectorSize
    modifies buf
    ensures buf[..] == BootImage(buf.Length, sn)
  {
    Memset(buf, buf.Length);
    CopyBytes(buf, 0, BootSector());
    CopyBytes(buf, BootOffsetSerialNumber, LeBytes32(sn));
    CopyBytes(buf, PartitionTableOffset + 4, PartitionRecord());
    buf[PartitionTableOffset + 64] := 0x55;
    buf[PartitionTableOffset + 65] := 0xAA;
    CopyBytes(buf, MbrOffsetSerialNumber, LeBytes32(sn));
    forall k | 0 <= k < buf.Length
      ensures buf[k] == BootByte(k, sn)
    {
    }
  }

  // -------------------------------------------------------------- FAT sectors

  /**
   * The FAT mirror: a block number within the two copies, brought into the
   * first copy by subtracting the copy's length while it is still too large.
   */
  method MirrorFatBlock(l: nat) returns (sector: nat)
    ensures sector < SectorsPerFat && sector == l % SectorsPerFat
    ensures l < FatCount * SectorsPerFat ==> sector == if l < SectorsPerFat then l else l - SectorsPerFat
  {
    sector := l;
    while sector >= SectorsPerFat
      invariant sector <= l && sector % SectorsPerFat == l % SectorsPerFat
    {
      sector := sector - SectorsPerFat;
    }
  }

  /** One sector of the allocation table; both copies come here with the sector number within the copy. */
  method WriteFatSector(sector: nat, buf: array<u8>)
    requires sector < SectorsPerFat && buf.Length >= SectorSize
    modifies buf
    ensures buf[..] == FatImage(sector, old(buf[..]))
  {
    if sector == 0 {
      WriteFatFirst(buf);
      return;
    }
    if sector < 8 {
      StoreChain(buf, sector, 0, 0x100);
    } else if sector == 8 {
      StoreChain(buf, sector, 0, 6);
      StoreWord(buf, 6, 0xFFFF);
      StoreChain(buf, sector, 7, 0x100);
    } else if sector < 16 {
      StoreChain(buf, sector, 0, 0x100);
    } else if sector == 16 {
      WriteFatLast(buf);
      return;
    } else {
      Memset(buf, buf.Length);
    }
    forall k | 0 <= k < buf.Length
      ensures buf[k] == FatByte(sector, k, old(buf[..]))
    {
    }
  }

  /** FAT sector 0: media byte, the reserved entry, the EEPROM and save chains, then the start of the ROM chain. */
  method WriteFatFirst(buf: array<u8>)
    requires buf.Length >= SectorSize
    modifies buf
    ensures buf[..] == FatImage(0, old(buf[..]))
  {
    WriteFatHead(buf);
    StoreChain(buf, 0, 7, 0x100);
    forall k | 0 <= k < buf.Length
      ensures buf[k] == FatByte(0, k, old(buf[..]))
    {
      if 14 <= k < 512 {
        var x := k / 2;
        assert 7 <= x < 256;
        assert FatEntry(x) == x + 1 && (0x100 * 0 + x + 1) % 0x1_0000 == x + 1;
      }
    }
  }

  /** The zeroed buffer with the first seven entries of FAT sector 0. */
  method WriteFatHead(buf: array<u8>)
    requires buf.Length >= SectorSize
    modifies buf
    ensures forall k :: 0 <= k < buf.Length ==> buf[k] == if k < 14 then WordByte(FatEntry(k / 2), k) else 0
  {
    Memset(buf, buf.Length);
    StoreWord(buf, 0, 0xFF00 + MediaType);
    StoreWord(buf, 1, 0xFFFF);
    StoreWord(buf, 2, 0xFFFF);
    StoreWord(buf, 3, 0x0004);
    StoreWord(buf, 4, 0x0005);
    StoreWord(buf, 5, 0x0006);
    StoreWord(buf, 6, 0xFFFF);
    forall k | 0 <= k < buf.Length
      ensures buf[k] == if k < 14 then WordByte(FatEntry(k / 2), k) else 0
    {
    }
  }

  /** FAT sector 16: the end of the byte-swapped ROM chain, the byte-swapped save chain and three one-cluster files. */
  method WriteFatLast(buf: array<u8>)
    requires buf.Length >= SectorSize
    modifies buf
    ensures buf[..] == FatImage(16, old(buf[..]))
  {
    StoreChain(buf, 16, 0, 6);
    StoreWord(buf, 6, 0xFFFF);
    StoreWord(buf, 7, 0x0008 + 16 * 0x100);
    StoreWord(buf, 8, 0x0009 + 16 * 0x100);
    StoreWord(buf, 9, 0x000A + 16 * 0x100);
    StoreWord(buf, 10, 0xFFFF);
    StoreWord(buf, 11, 0xFFFF);
    StoreWord(buf, 12, 0xFFFF);
    forall k | 0 <= k < buf.Length
      ensures buf[k] == FatByte(16, k, old(buf[..]))
    {
    }
  }

  // ---------------------------------------------------------- root directory

  /** The 32 bytes init_dir_entry leaves in an entry whose bytes were `prior`. */
  function InitializedEntry(prior: seq<u8>, name: seq<u8>, cluster: u32, size: u32): (bs: seq<u8>)
    requires |prior| == 32 && |name| == 11
    ensures |bs| == 32
  {
    DirEntryBytes(FileEntry(name, cluster, size, prior[12], Word(prior[18], prior[19])))
  }

  /**
   * init_dir_entry on the 32 bytes at `at`: the entry's fields are stored as
   * one record; the reserved byte and the access date, which the firmware
   * does not set, keep what the entry held.
   */
  method InitDirEntry(buf: array<u8>, at: nat, name: seq<u8>, cluster: u32, size: u32)
    requires at + 32 <= buf.Length && |name| == 11
    modifies buf
    ensures EntryInitialized(old(buf[..]), buf[..], at, name, cluster, size)
  {
    var want := InitializedEntry(buf[..][at..at + 32], name, cluster, size);
    CopyBytes(buf, at, want);
    forall k | 0 <= k < buf.Length
      ensures buf[k] == if at <= k < at + 32 then want[k - at] else old(buf[k])
    {
    }
  }

  /** after is before with the 32 bytes at `at` replaced by init_dir_entry's result. */
  ghost predicate EntryInitialized(before: seq<u8>, after: seq<u8>, at: nat, name: seq<u8>, cluster: u32, size: u32)
    requires at + 32 <= |before| && |name| == 11
  {
    && |after| == |before|
    && forall k :: 0 <= k < |after| ==> after[k] == if at <= k < at + 32
      then InitializedEntry(before[at..at + 32], name, cluster, size)[k - at]
      else before[k]
  }

  /** The first n entries of a directory sector hold es[0..n]. */
  ghost predicate SlotsHold(bs: seq<u8>, n: nat, es: seq<DirEntry>)
    requires n <= |es| && 32 * n <= |bs|
    requires forall i :: 0 <= i < |es| ==> |es[i].name| == 11
  {
    forall i, j :: 0 <= i < n && 0 <= j < 32 ==> bs[32 * i + j] == DirEntryBytes(es[i])[j]
  }

  /** The label written over a zeroed sector fills slot 0. */
  lemma LabelSlot(before: seq<u8>, after: seq<u8>, es: seq<DirEntry>)
    requires |before| == |after| >= 256 && |es| == 8
    requires forall m :: 0 <= m < 8 ==> |es[m].name| == 11
    requires es[0] == LabelEntry()
    requires forall k :: 0 <= k < |before| ==> before[k] == 0
    requires forall k :: 0 <= k < |after| ==>
      after[k] == if k < 11 then BootSector()[BootOffsetLabel + k] else if k == 11 then AttrVolumeLabel + AttrArchive else before[k]
    ensures SlotsHold(after, 1, es)
    ensures forall k :: 32 <= k < |after| ==> after[k] == 0
  {
    var w := DirEntryBytes(es[0]);
    assert w == BootSector()[BootOffsetLabel..BootOffsetLabel + 11] + [0x28] + Zeros(20);
    forall j | 0 <= j < 32
      ensures after[j] == w[j]
    {
    }
  }

  /** On an entry whose bytes are still zero, init_dir_entry leaves exactly the file's entry. */
  lemma InitializedOnZeros(prior: seq<u8>, name: seq<u8>, cluster: u32, size: u32)
    requires |prior| == 32 && |name| == 11
    requires prior[12] == 0 && prior[18] == 0 && prior[19] == 0
    ensures InitializedEntry(prior, name, cluster, size) == DirEntryBytes(FileEntry(name, cluster, size, 0, 0))
  {
    assert Word(0, 0) == 0;
  }

  /** The first four entries of directory sector 0, with the cluster numbers the builder steps through. */
  lemma SectorZeroEntriesLow(eepromSize: u32, romSize: u32)
    ensures var es := RootEntries(eepromSize, romSize);
      && es[0] == LabelEntry()
      && es[1] == FileEntry(FileName(Eeprom), 2, eepromSize, 0, 0)
      && es[2] == FileEntry(FileName(Save), 3, 128 * 1024, 0, 0)
      && es[3] == FileEntry(FileName(Rom), 7, romSize, 0, 0)
  {
    assert FirstFatCluster(Eeprom) == 2 && FirstFatCluster(Save) == 3 && FirstFatCluster(Rom) == 7;
  }

  /** The last four entries of directory sector 0, with the cluster numbers the builder steps through. */
  lemma SectorZeroEntriesHigh(eepromSize: u32, romSize: u32)
    ensures var es := RootEntries(eepromSize, romSize);
      && es[4] == FileEntry(FileName(RomFlipped), 2055, romSize, 0, 0)
      && es[5] == FileEntry(FileName(SaveFlipped), 4103, 128 * 1024, 0, 0)
      && es[6] == FileEntry(FileName(EepromFlipped), 4107, eepromSize, 0, 0)
      && es[7] == FileEntry(FileName(CartTest), 4108, 2 * 1024, 0, 0)
  {
    assert FirstFatCluster(RomFlipped) == 2055 && FirstFatCluster(SaveFlipped) == 4103;
    assert FirstFatCluster(EepromFlipped) == 4107 && FirstFatCluster(CartTest) == 4108;
  }

  /** Storing entry i's bytes in slot i of a sector whose slots from i on are still zero. */
  lemma FileSlot(before: seq<u8>, after: seq<u8>, i: nat, es: seq<DirEntry>, w: seq<u8>)
    requires 1 <= i < 8 && |es| == 8
    requires forall m :: 0 <= m < 8 ==> |es[m].name| == 11
    requires |before| == |after| >= 256
    requires w == DirEntryBytes(es[i])
    requires SlotsHold(before, i, es)
    requires forall k :: 32 * i <= k < |before| ==> before[k] == 0
    requires forall k :: 0 <= k < |after| ==> after[k] == if 32 * i <= k < 32 * i + 32 then w[k - 32 * i] else before[k]
    ensures SlotsHold(after, i + 1, es)
    ensures forall k :: 32 * (i + 1) <= k < |after| ==> after[k] == 0
  {
    forall m, j | 0 <= m < i + 1 && 0 <= j < 32
      ensures after[32 * m + j] == DirEntryBytes(es[m])[j]
    {
      if m < i {
        assert before[32 * m + j] == DirEntryBytes(es[m])[j];
      } else {
        assert after[32 * m + j] == w[j];
      }
    }
  }

  /** What one init_dir_entry call adds to a sector whose slots from i on are still zero. */
  lemma SlotAfterInit(before: seq<u8>, after: seq<u8>, i: nat, es: seq<DirEntry>, name: seq<u8>, cluster: u32, size: u32)
    requires 1 <= i < 8 && |es| == 8 && |name| == 11 && |before| == |after| >= SectorSize
    requires forall m :: 0 <= m < 8 ==> |es[m].name| == 11
    requires es[i] == FileEntry(name, cluster, size, 0, 0)
    requires SlotsHold(before, i, es)
    requires forall k :: 32 * i <= k < |before| ==> before[k] == 0
    requires forall k :: 0 <= k < |after| ==> after[k] == if 32 * i <= k < 32 * i + 32
      then InitializedEntry(before[32 * i..32 * i + 32], name, cluster, size)[k - 32 * i]
      else before[k]
    ensures SlotsHold(after, i + 1, es)
    ensures forall k :: 32 * (i + 1) <= k < |after| ==> after[k] == 0
  {
    var prior := before[32 * i..32 * i + 32];
    assert prior[12] == before[32 * i + 12] && prior[18] == before[32 * i + 18] && prior[19] == before[32 * i + 19];
    InitializedOnZeros(prior, name, cluster, size);
    FileSlot(before, after, i, es, InitializedEntry(prior, name, cluster, size));
  }

  /** The bytes of an initialized entry, one by one. */
  lemma EntryInitializedBytes(before: seq<u8>, after: seq<u8>, at: nat, name: seq<u8>, cluster: u32, size: u32)
    requires at + 32 <= |before| && |name| == 11
    requires EntryInitialized(before, after, at, name, cluster, size)
    ensures |after| == |before|
    ensures forall k :: 0 <= k < |after| ==> after[k] == if at <= k < at + 32
      then InitializedEntry(before[at..at + 32], name, cluster, size)[k - at]
      else before[k]
  {
  }

  /** One init_dir_entry call of the directory builder: slot i of a sector filled up to slot i. */
  method AddFileEntry(buf: array<u8>, i: nat, name: seq<u8>, cluster: u32, size: u32, ghost es: seq<DirEntry>)
    requires 1 <= i < 8 && |es| == 8 && |name| == 11 && buf.Length >= SectorSize
    requires forall m :: 0 <= m < 8 ==> |es[m].name| == 11
    requires es[i] == FileEntry(name, cluster, size, 0, 0)
    requires SlotsHold(buf[..], i, es)
    requires forall k :: 32 * i <= k < buf.Length ==> buf[k] == 0
    modifies buf
    ensures SlotsHold(buf[..], i + 1, es)
    ensures forall k :: 32 * (i + 1) <= k < buf.Length ==> buf[k] == 0
  {
    ghost var before := buf[..];
    InitDirEntry(buf, 32 * i, name, cluster, size);
    EntryInitializedBytes(before, buf[..], 32 * i, name, cluster, size);
    SlotAfterInit(before, buf[..], i, es, name, cluster, size);
  }

  /** The label entry of sector 0: the label text copied out of boot_sector, attribute 0x28. */
  method AddLabelEntry(buf: array<u8>, ghost es: seq<DirEntry>)
    requires buf.Length >= SectorSize && |es| == 8
    requires forall m :: 0 <= m < 8 ==> |es[m].name| == 11
    requires es[0] == LabelEntry()
    requires forall k :: 0 <= k < buf.Length ==> buf[k] == 0
    modifies buf
    ensures SlotsHold(buf[..], 1, es)
    ensures forall k :: 32 <= k < buf.Length ==> buf[k] == 0
  {
    ghost var before := buf[..];
    CopyBytes(buf, 0, BootSector()[BootOffsetLabel..BootOffsetLabel + 11]);
    buf[11] := AttrVolumeLabel + AttrArchive;
    LabelSlot(before, buf[..], es);
  }

  /**
   * A directory sector.  Sector 0 gets the volume label (the label text of
   * boot_sector, attribute 0x28) and then the seven files, whose cluster
   * numbers are reached by stepping past each previous file.
   */
  method WriteRootSector(sector: nat, buf: array<u8>, eepromSize: u32, romSize: u32)
    requires sector < RootDirectorySectors && buf.Length >= SectorSize
    modifies buf
    ensures buf[..] == RootImage(sector, buf.Length, eepromSize, romSize)
  {
    Memset(buf, buf.Length);
    if sector == 0 {
      ghost var es := RootEntries(eepromSize, romSize);
      SectorZeroEntriesLow(eepromSize, romSize);
      SectorZeroEntriesHigh(eepromSize, romSize);
      AddLabelEntry(buf, es);
      var clusterOffset := 2;
      var size := 2 * 1024;
      AddFileEntry(buf, 1, FileName(Eeprom), clusterOffset, eepromSize, es);
      clusterOffset := clusterOffset + size / ClusterSize + 1;
      size := 128 * 1024;
      AddFileEntry(buf, 2, FileName(Save), clusterOffset, size, es);
      clusterOffset := clusterOffset + size / ClusterSize;
      size := 64 * 1024 * 1024;
      AddFileEntry(buf, 3, FileName(Rom), clusterOffset, romSize, es);
      clusterOffset := clusterOffset + size / ClusterSize;
      size := 64 * 1024 * 1024;
      AddFileEntry(buf, 4, FileName(RomFlipped), clusterOffset, romSize, es);
      clusterOffset := clusterOffset + size / ClusterSize;
      size := 128 * 1024;
      AddFileEntry(buf, 5, FileName(SaveFlipped), clusterOffset, size, es);
      clusterOffset := clusterOffset + size / ClusterSize;
      size := 2 * 1024;
      AddFileEntry(buf, 6, FileName(EepromFlipped), clusterOffset, eepromSize, es);
      clusterOffset := clusterOffset + size / ClusterSize + 1;
      size := 2 * 1024;
      AddFileEntry(buf, 7, FileName(CartTest), clusterOffset, size, es);
      RootSectorZero(buf[..], eepromSize, romSize);
    } else {
      forall k | 0 <= k < buf.Length
        ensures buf[k] == RootByte(sector, k, eepromSize, romSize)
      {
      }
    }
  }

  /** Eight slots filled, read byte by byte. */
  lemma SlotsBytes(bs: seq<u8>, es: seq<DirEntry>)
    requires |bs| >= 256 && |es| == 8
    requires forall m :: 0 <= m < 8 ==> |es[m].name| == 11
    requires SlotsHold(bs, 8, es)
    ensures forall k :: 0 <= k < 256 ==> bs[k] == DirEntryBytes(es[k / 32])[k % 32]
  {
    forall k | 0 <= k < 256
      ensures bs[k] == DirEntryBytes(es[k / 32])[k % 32]
    {
      var i, j := k / 32, k % 32;
      assert k == 32 * i + j;
      assert bs[32 * i + j] == DirEntryBytes(es[i])[j];
    }
  }

  /** A buffer holding the eight entries back to back, then zeros, is directory sector 0. */
  lemma RootSectorZero(bs: seq<u8>, eepromSize: u32, romSize: u32)
    requires |bs| >= SectorSize
    requires SlotsHold(bs, 8, RootEntries(eepromSize, romSize))
    requires forall k :: 256 <= k < |bs| ==> bs[k] == 0
    ensures bs == RootImage(0, |bs|, eepromSize, romSize)
  {
    SlotsBytes(bs, RootEntries(eepromSize, romSize));
    forall k | 0 <= k < |bs|
      ensures bs[k] == RootByte(0, k, eepromSize, romSize)
    {
    }
  }

  // -------------------------------------------------------------- data blocks

  /** `((uint16_t *)buf)[at + i] = ws[i]` for every i. */
  method StoreWords(buf: array<u8>, at: nat, ws: seq<u16>)
    requires 2 * (at + |ws|) <= buf.Length
    modifies buf
    ensures buf[..] == old(buf[..])[..2 * at] + WordBytes(ws) + old(buf[..])[2 * (at + |ws|)..]
  {
    ghost var before := buf[..];
    var i := 0;
    while i < |ws|
      invariant 0 <= i <= |ws|
      invariant forall k {:trigger buf[k]} :: 0 <= k < buf.Length ==> buf[k] == if 2 * at <= k < 2 * (at + i)
        then WordByte(ws[k / 2 - at], k)
        else before[k]
    {
      StoreWord(buf, at + i, ws[i]);
      assert (2 * (at + i)) / 2 == at + i && (2 * (at + i) + 1) / 2 == at + i;
      i := i + 1;
    }
    ghost var want := before[..2 * at] + WordBytes(ws) + before[2 * (at + |ws|)..];
    forall k | 0 <= k < buf.Length
      ensures buf[k] == want[k]
    {
      if 2 * at <= k < 2 * (at + |ws|) {
        assert want[k] == WordBytes(ws)[k - 2 * at];
        assert (k - 2 * at) / 2 == k / 2 - at && (k - 2 * at) % 2 == k % 2;
      }
    }
    assert buf[..] == want;
  }

  /**
   * n consecutive read16 calls stored as words at `at` onward, each passed
   * through flip16 when flip is set: `((uint16_t *)buf)[at + i] = read16()`.
   * The words stored are returned as well.
   */
  method ReadWordsInto(port: BusPort, buf: array<u8>, at: nat, n: nat, flip: bool) returns (ws: seq<u16>)
    requires 2 * (at + n) <= buf.Length
    modifies port, buf
    ensures ws == Oriented(Words(port.View(), old(port.address), n), flip)
    ensures buf[..] == old(buf[..])[..2 * at] + WordBytes(ws) + old(buf[..])[2 * (at + n)..]
    ensures port.address == Wrap32(old(port.address) + 2 * n) && port.trace == old(port.trace)
    ensures port.statusMode == old(port.statusMode)
  {
    ws := port.ReadWords(n, flip);
    StoreWords(buf, at, ws);
  }

  /** The image of two runs of words is the images one after the other. */
  lemma WordBytesAppend(a: seq<u16>, b: seq<u16>)
    ensures WordBytes(a + b) == WordBytes(a) + WordBytes(b)
  {
    var l, r := WordBytes(a + b), WordBytes(a) + WordBytes(b);
    forall k | 0 <= k < |l|
      ensures l[k] == r[k]
    {
      if k >= 2 * |a| {
        assert (k - 2 * |a|) / 2 == k / 2 - |a| && (k - 2 * |a|) % 2 == k % 2;
      }
    }
  }

  /** Reading m words and then n more is reading m + n words. */
  lemma WordsSplit(bus: u32 -> u16, a: u32, m: nat, n: nat)
    ensures Words(bus, a, m + n) == Words(bus, a, m) + Words(bus, Wrap32(a + 2 * m), n)
  {
    var whole, parts := Words(bus, a, m + n), Words(bus, a, m) + Words(bus, Wrap32(a + 2 * m), n);
    forall k | 0 <= k < m + n
      ensures whole[k] == parts[k]
    {
      if k >= m {
        WrapAdd(a + 2 * m, 2 * (k - m));
      }
    }
  }

  /** Bytes `chunk` stored right after a filled prefix `done` extend the prefix. */
  lemma Splice(before: seq<u8>, mid: seq<u8>, after: seq<u8>, done: seq<u8>, chunk: seq<u8>)
    requires |before| == |mid| >= |done| + |chunk|
    requires mid == done + before[|done|..]
    requires after == mid[..|done|] + chunk + mid[|done| + |chunk|..]
    ensures after == (done + chunk) + before[|done| + |chunk|..]
  {
    assert mid[..|done|] == done;
    assert mid[|done| + |chunk|..] == before[|done| + |chunk|..];
  }

  /** The first p passes of the ROM loop, each 256 words read from the address it latched. */
  function RomPasses(bus: u32 -> u16, base: u32, p: nat): (bs: seq<u8>)
    ensures |bs| == 512 * p
  {
    if p == 0 then [] else RomPasses(bus, base, p - 1) + WordBytes(Words(bus, Wrap32(base + 512 * (p - 1)), 256))
  }

  /** Reading pass after pass is reading the ROM straight through. */
  lemma {:induction false} RomPassesAreRomBytes(bus: u32 -> u16, base: u32, p: nat)
    ensures RomPasses(bus, base, p) == RomBytes(bus, base, 256 * p)
  {
    if p > 0 {
      RomPassesAreRomBytes(bus, base, p - 1);
      WordsSplit(bus, base, 256 * (p - 1), 256);
      PassStep(RomPasses(bus, base, p - 1), Words(bus, base, 256 * (p - 1)),
               Words(bus, Wrap32(base + 512 * (p - 1)), 256), Words(bus, base, 256 * p));
    }
  }

  /** A prefix of the bytes of some words, followed by the bytes of the words after them. */
  lemma PassStep(prev: seq<u8>, front: seq<u16>, back: seq<u16>, whole: seq<u16>)
    requires prev == WordBytes(front) && whole == front + back
    ensures prev + WordBytes(back) == WordBytes(whole)
  {
    WordBytesAppend(front, back);
  }

  /** The ROM loop's latches grow by one per pass. */
  lemma RomLatchesStep(base: u32, n: nat)
    ensures RomLatches(base, n + 1) == RomLatches(base, n) + [Latch(Wrap32(base + 512 * n))]
  {
  }

  /** The flip loop over the first sector: `((uint16_t *)buf)[i] = flip16(((uint16_t *)buf)[i])` for 256 words. */
  method FlipSectorWords(buf: array<u8>)
    requires buf.Length >= 512
    modifies buf
    ensures buf[..] == SwapPairs(old(buf[..])[..512]) + old(buf[..])[512..]
  {
    ghost var before := buf[..];
    var i := 0;
    while i < 256
      invariant 0 <= i <= 256
      invariant forall k {:trigger buf[k]} :: 0 <= k < buf.Length ==> buf[k] == if k < 2 * i
        then (if k % 2 == 0 then before[k + 1] else before[k - 1])
        else before[k]
    {
      assert buf[2 * i] == before[2 * i] && buf[2 * i + 1] == before[2 * i + 1];
      var w := Word(buf[2 * i], buf[2 * i + 1]);
      StoreWord(buf, i, Flip16(w));
      assert (2 * i) % 2 == 0 && (2 * i + 1) % 2 == 1;
      assert buf[2 * i] == before[2 * i + 1] && buf[2 * i + 1] == before[2 * i];
      i := i + 1;
    }
    forall k | 0 <= k < buf.Length
      ensures buf[k] == (SwapPairs(before[..512]) + before[512..])[k]
    {
      if k < 512 {
        assert SwapPairs(before[..512])[k] == if k % 2 == 0 then before[k + 1] else before[k - 1];
      }
    }
    assert buf[..] == SwapPairs(before[..512]) + before[512..];
  }

  /** The text sprintf renders into a zeroed sector, cut at the sector's end. */
  method PrintText(buf: array<u8>, t: seq<u8>)
    requires buf.Length >= 512
    modifies buf
    ensures buf[..] == TextBlock(t) + old(buf[..])[512..]
  {
    Memset(buf, 512);
    if |t| < 512 {
      CopyBytes(buf, 0, t + [0]);
    } else {
      CopyBytes(buf, 0, t[..512]);
    }
    assert buf[..] == TextBlock(t) + old(buf[..])[512..];
  }

  /**
   * One pass of the ROM loop: latch the address, then 256 words into the
   * buffer at byte 512 * p, which extends the image by one more pass.
   */
  method RomPass(port: BusPort, buf: array<u8>, base: u32, address: u32, written: nat, ghost p: nat, ghost before: seq<u8>)
    requires written == 512 * p && written + 512 <= buf.Length == |before|
    requires address == Wrap32(base + written)
    requires buf[..] == RomPasses(port.View(), base, p) + before[written..]
    modifies port, buf
    ensures buf[..] == RomPasses(port.View(), base, p + 1) + before[written + 512..]
    ensures port.trace == old(port.trace) + [Latch(address)] && port.statusMode == old(port.statusMode)
  {
    port.SetAddress(address);
    ghost var mid := buf[..];
    assert written / 2 == 256 * p;
    var ws := ReadWordsInto(port, buf, written / 2, 256, false);
    Splice(before, mid, buf[..], RomPasses(port.View(), base, p), WordBytes(ws));
    assert RomPasses(port.View(), base, p + 1) == RomPasses(port.View(), base, p) + WordBytes(ws);
  }

  /** Where the ROM loop stands after p passes, with the buffer, trace and mode it started from. */
  ghost predicate RomLoopState(port: BusPort, buf: array<u8>, base: u32, address: u32, written: int, p: nat,
                               before: seq<u8>, mode: bool, trace0: seq<BusOp>)
    reads port, buf
  {
    && written == 512 * p && written <= buf.Length == |before|
    && address == Wrap32(base + written) && port.statusMode == mode
    && buf[..] == RomPasses(Answers(port.bus, port.status, mode), base, p) + before[written..]
    && port.trace == trace0 + RomLatches(base, p)
  }

  /** Before the first pass the buffer is untouched and no latch has been sent. */
  lemma RomLoopStart(port: BusPort, buf: array<u8>, base: u32)
    ensures RomLoopState(port, buf, base, base, 0, 0, buf[..], port.statusMode, port.trace)
  {
    assert buf[..] == RomPasses(Answers(port.bus, port.status, port.statusMode), base, 0) + buf[..][0..];
    assert port.trace == port.trace + RomLatches(base, 0);
  }

  /** When the loop has consumed the whole buffer, the buffer is exactly the passes. */
  lemma RomLoopDone(port: BusPort, buf: array<u8>, base: u32, address: u32, written: int, p: nat,
                    before: seq<u8>, mode: bool, trace0: seq<BusOp>)
    requires RomLoopState(port, buf, base, address, written, p, before, mode, trace0) && written == buf.Length
    ensures buf[..] == RomPasses(port.View(), base, p)
    ensures port.trace == trace0 + RomLatches(base, p) && port.statusMode == mode
  {
    assert before[written..] == [];
  }

  /**
   * One iteration of the ROM loop: the pass, the latch it adds to the trace,
   * and the next address, 512 bytes on.
   */
  method RomStep(port: BusPort, buf: array<u8>, base: u32, address: u32, written: int,
                 ghost p: nat, ghost before: seq<u8>, ghost mode: bool, ghost trace0: seq<BusOp>)
      returns (next: u32)
    requires RomLoopState(port, buf, base, address, written, p, before, mode, trace0)
    requires written + 512 <= buf.Length
    modifies port, buf
    ensures RomLoopState(port, buf, base, next, written + 512, p + 1, before, mode, trace0)
  {
    RomPass(port, buf, base, address, written, p, before);
    RomLatchesStep(base, p);
    WrapAdd(base + written, 512);
    next := Wrap32(address + 512);
  }

  /**
   * The ROM loop: while bytes remain, a pass of 512 bytes from the next
   * address; the buffer becomes the passes in order, one latch each.
   */
  method RomLoop(port: BusPort, buf: array<u8>, base: u32) returns (written: int)
    requires buf.Length % 512 == 0
    modifies port, buf
    ensures port.statusMode == old(port.statusMode)
    ensures buf[..] == RomPasses(port.View(), base, buf.Length / 512)
    ensures port.trace == old(port.trace) + RomLatches(base, buf.Length / 512)
    ensures written == buf.Length
  {
    ghost var before := buf[..];
    ghost var mode := port.statusMode;
    ghost var passes := buf.Length / 512;
    assert buf.Length == 512 * passes;
    ghost var p := 0;
    var address := base;
    var remaining := buf.Length;
    written := 0;
    RomLoopStart(port, buf, base);
    while remaining > 0
      invariant p <= passes && remaining == 512 * (passes - p)
      invariant RomLoopState(port, buf, base, address, written, p, before, mode, old(port.trace))
    {
      address := RomStep(port, buf, base, address, written, p, before, mode, old(port.trace));
      remaining := remaining - 512;
      written := written + 512;
      p := p + 1;
    }
    assert p == passes;
    RomLoopDone(port, buf, base, address, written, p, before, mode, old(port.trace));
  }

  /** The disk as the read callback sees it: the cartridge globals, the EEPROM link and the serial number. */
  class Disk {
    const cart: Cart
    const eeprom: EepromSession
    const boot: BootDeviceState

    constructor(cart: Cart, eeprom: EepromSession)
      ensures this.cart == cart && this.eeprom == eeprom
      ensures fresh(boot) && !boot.serialNumberValid
    {
      this.cart := cart;
      this.eeprom := eeprom;
      boot := new BootDeviceState();
    }

    /** The cartridge facts the blocks are built from. */
    function Facts(): DiskFacts
      reads cart, cart.port, eeprom
    {
      DiskFacts(cart.port.bus, cart.port.status, cart.port.statusMode, cart.framPresent, cart.sramPresent, eeprom.eepromSize, cart.romSize,
                cart.cicType, cart.cicName, cart.gameTitle, cart.gameCode, eeprom.rx)
    }

    /** The text file: the report in its first block, zeros in the others. */
    method ReadCartTest(offset: nat, buf: array<u8>)
      requires buf.Length >= 512
      modifies buf
      ensures buf[..] == (if offset == 0 then ReportBlock(ReportOf(Facts())) else Zeros(512)) + old(buf[..])[512..]
    {
      if offset == 0 {
        PrintText(buf, ReportText(ReportOf(Facts())));
      } else {
        Memset(buf, 512);
        Memset(buf, 512);
        assert buf[..] == Zeros(512) + old(buf[..])[512..];
      }
    }

    /**
     * The save window, flipped or not: read mode for a FlashRAM, then 256
     * words from the SRAM window, read in the mode the chip is then in.
     */
    method ReadSave(cluster: nat, offset: nat, buf: array<u8>, flip: bool)
      requires buf.Length >= 512
      modifies buf, cart.port
      ensures cart.port.statusMode == (old(cart.port.statusMode) && cart.framPresent == 0)
      ensures buf[..] == WordBytes(SramReadWords(cart.port.View(), RegionAddress(cluster, offset), flip)) + old(buf[..])[512..]
      ensures cart.port.trace == old(cart.port.trace) + (if cart.framPresent != 0 then ReadModeOps() else [])
        + [Latch(Wrap32(RegionAddress(cluster, offset) + SramAddressStart))]
    {
      ghost var before := buf[..];
      if cart.framPresent != 0 {
        cart.SendFlashCommand(ReadArrayCommand);
      }
      ghost var t := cart.port.trace;
      assert buf[..] == before;
      var address := Wrap32(RegionAddress(cluster, offset) + SramAddressStart);
      cart.port.SetAddress(address);
      var ws := ReadWordsInto(cart.port, buf, 0, 256, flip);
      assert ws == SramReadWords(cart.port.View(), RegionAddress(cluster, offset), flip);
      assert buf[..] == WordBytes(ws) + before[512..];
      assert cart.port.trace == t + [Latch(address)];
    }

    /** The byte-flipped ROM file: one latch, 256 flipped words. */
    method ReadRomFlipped(cluster: nat, offset: nat, buf: array<u8>)
      requires buf.Length >= 512
      modifies buf, cart.port
      ensures buf[..] == WordBytes(FlipWords(Words(cart.port.View(), RomBusAddress(cluster, offset), 256))) + old(buf[..])[512..]
      ensures cart.port.trace == old(cart.port.trace) + [Latch(RomBusAddress(cluster, offset))]
      ensures cart.port.statusMode == old(cart.port.statusMode)
    {
      ghost var before := buf[..];
      cart.port.SetAddress(RomBusAddress(cluster, offset));
      var ws := ReadWordsInto(cart.port, buf, 0, 256, true);
      assert buf[..] == WordBytes(ws) + before[512..];
    }

    /**
     * The ROM file: the whole buffer is filled, 512 bytes per pass, each pass
     * latching the next address; the returned count is the buffer size.
     */
    method ReadRom(cluster: nat, offset: nat, buf: array<u8>) returns (written: int)
      requires buf.Length % 512 == 0
      modifies buf, cart.port
      ensures buf[..] == RomBytes(cart.port.View(), RomBusAddress(cluster, offset), 256 * (buf.Length / 512))
      ensures cart.port.trace == old(cart.port.trace) + RomLatches(RomBusAddress(cluster, offset), buf.Length / 512)
      ensures cart.port.statusMode == old(cart.port.statusMode)
      ensures written == buf.Length
    {
      var base := RomBusAddress(cluster, offset);
      written := RomLoop(cart.port, buf, base);
      RomPassesAreRomBytes(cart.port.View(), base, buf.Length / 512);
    }

    /** The flipped EEPROM file: the 64 EEPROM bytes, then the first 256 words byte-swapped. */
    method ReadEepromFlipped(cluster: nat, offset: nat, buf: array<u8>)
      requires buf.Length >= 512
      requires eeprom.eepromSize != 0 ==> |eeprom.rx| >= 64
      modifies buf, eeprom
      ensures buf[..] == SwapPairs(EepromBytes(old(buf[..]), old(eeprom.rx), old(eeprom.eepromSize))[..512]) + old(buf[..])[512..]
      ensures EepromRead(old(eeprom.rx), eeprom.rx, old(eeprom.tx), eeprom.tx, old(eeprom.restarts), eeprom.restarts,
                         if old(eeprom.eepromSize) != 0 then 64 else 0, EepromBlockOffset(cluster, offset))
      ensures eeprom.eepromSize == old(eeprom.eepromSize) && eeprom.waitedMs == old(eeprom.waitedMs)
      ensures eeprom.programOffset == old(eeprom.programOffset) && eeprom.readCount == old(eeprom.readCount)
    {
      ReadEeprom(cluster, offset, buf);
      FlipSectorWords(buf);
    }

    /** The EEPROM file: ReadEepromData at the block the address over 64 names. */
    method ReadEeprom(cluster: nat, offset: nat, buf: array<u8>)
      requires buf.Length >= 64
      requires eeprom.eepromSize != 0 ==> |eeprom.rx| >= 64
      modifies buf, eeprom
      ensures buf[..] == EepromBytes(old(buf[..]), old(eeprom.rx), old(eeprom.eepromSize))
      ensures EepromRead(old(eeprom.rx), eeprom.rx, old(eeprom.tx), eeprom.tx, old(eeprom.restarts), eeprom.restarts,
                         if old(eeprom.eepromSize) != 0 then 64 else 0, EepromBlockOffset(cluster, offset))
      ensures eeprom.eepromSize == old(eeprom.eepromSize) && eeprom.waitedMs == old(eeprom.waitedMs)
      ensures eeprom.programOffset == old(eeprom.programOffset) && eeprom.readCount == old(eeprom.readCount)
    {
      eeprom.ReadEepromData(EepromBlockOffset(cluster, offset), buf);
      if eeprom.eepromSize != 0 {
        assert buf[..] == buf[..64] + buf[64..];
      }
    }

    /**
     * A block of the data area: the tests on the cluster number in the
     * callback's order, each branch filling the buffer from its window.
     */
    method ReadData(cluster: nat, offset: nat, buf: array<u8>) returns (written: int)
      requires buf.Length >= SectorSize && (SourceOf(cluster) == Rom ==> buf.Length % SectorSize == 0)
      requires ReadsEeprom(cluster) && eeprom.eepromSize != 0 ==> |eeprom.rx| >= 64
      modifies buf, cart.port, eeprom
      ensures cart.port.trace == old(cart.port.trace) + DataOps(cluster, offset, buf.Length, old(Facts()))
      ensures cart.port.statusMode == (old(cart.port.statusMode) && !SendsReadArray(cluster, old(Facts())))
      ensures written == if SourceOf(cluster) == Rom then buf.Length else SectorSize
      ensures EepromRead(old(eeprom.rx), eeprom.rx, old(eeprom.tx), eeprom.tx, old(eeprom.restarts), eeprom.restarts,
                         if ReadsEeprom(cluster) && old(eeprom.eepromSize) != 0 then 64 else 0, EepromBlockOffset(cluster, offset))
      ensures eeprom.eepromSize == old(eeprom.eepromSize) && eeprom.waitedMs == old(eeprom.waitedMs)
      ensures eeprom.programOffset == old(eeprom.programOffset) && eeprom.readCount == old(eeprom.readCount)
      ensures buf[..] == DataImage(cluster, offset, old(buf[..]), old(Facts()))
    {
      written := SectorSize;
      if cluster == CartTestClusterStart {
        assert SourceOf(cluster) == CartTest;
        ReadCartTest(offset, buf);
        NoEepromRead(eeprom.rx, eeprom.tx, eeprom.restarts, EepromBlockOffset(cluster, offset));
      } else if cluster == EepromFlipClusterStart {
        assert SourceOf(cluster) == EepromFlipped;
        ReadEepromFlipped(cluster, offset, buf);
      } else if cluster >= FlashRamClusterStart {
        written := ReadCartWindow(cluster, offset, buf);
        NoEepromRead(eeprom.rx, eeprom.tx, eeprom.restarts, EepromBlockOffset(cluster, offset));
      } else if cluster == EepromClusterStart {
        assert SourceOf(cluster) == Eeprom;
        ReadEeprom(cluster, offset, buf);
      }
    }

    /**
     * The middle of the callback's chain, the four windows on the cartridge
     * bus: flipped save, flipped ROM, ROM and save, checked from the highest
     * cluster start down.
     */
    method ReadCartWindow(cluster: nat, offset: nat, buf: array<u8>) returns (written: int)
      requires buf.Length >= SectorSize && (SourceOf(cluster) == Rom ==> buf.Length % SectorSize == 0)
      requires cluster >= FlashRamClusterStart && cluster != CartTestClusterStart && cluster != EepromFlipClusterStart
      modifies buf, cart.port
      ensures cart.port.trace == old(cart.port.trace) + DataOps(cluster, offset, buf.Length, old(Facts()))
      ensures cart.port.statusMode == (old(cart.port.statusMode) && !SendsReadArray(cluster, old(Facts())))
      ensures written == if SourceOf(cluster) == Rom then buf.Length else SectorSize
      ensures buf[..] == DataImage(cluster, offset, old(buf[..]), old(Facts()))
    {
      written := SectorSize;
      if cluster >= FlashRamFlipClusterStart {
        ReadSave(cluster, offset, buf, true);
      } else if cluster >= Z64RomClusterStart {
        ReadRomFlipped(cluster, offset, buf);
      } else if cluster >= N64RomClusterStart {
        written := ReadRom(cluster, offset, buf);
      } else {
        ReadSave(cluster, offset, buf, false);
      }
    }

    /**
     * tud_msc_read10_cb: the block lba of the volume, built into the buffer.
     * The two record blocks fix the serial number on first use; every other
     * block leaves it alone.
     */
    method Read10(lba: u32, buf: array<u8>, now: u32) returns (written: int)
      requires buf.Length >= SectorSize
      requires Classify(lba).Data? && SourceOf(Classify(lba).cluster) == Rom ==> buf.Length % SectorSize == 0
      requires |eeprom.rx| >= RxNeeded(lba, eeprom.eepromSize)
      modifies buf, boot, cart.port, eeprom
      ensures cart.port.trace == old(cart.port.trace) + SectorOps(lba, buf.Length, old(Facts()))
      ensures cart.port.statusMode == ModeAfterRead(lba, old(Facts()))
      ensures written == SectorWritten(lba, buf.Length)
      ensures EepromRead(old(eeprom.rx), eeprom.rx, old(eeprom.tx), eeprom.tx, old(eeprom.restarts), eeprom.restarts,
                         RxNeeded(lba, old(eeprom.eepromSize)), SectorEepromOffset(lba))
      ensures eeprom.eepromSize == old(eeprom.eepromSize) && eeprom.waitedMs == old(eeprom.waitedMs)
      ensures eeprom.programOffset == old(eeprom.programOffset) && eeprom.readCount == old(eeprom.readCount)
      ensures lba <= 1 ==> boot.serialNumberValid && boot.serialNumber32 == SerialFor(old(boot.serialNumberValid), old(boot.serialNumber32), now)
      ensures lba > 1 ==> boot.serialNumberValid == old(boot.serialNumberValid) && boot.serialNumber32 == old(boot.serialNumber32)
      ensures buf[..] == SectorImage(lba, old(buf[..]), old(Facts()),
                                     SerialFor(old(boot.serialNumberValid), old(boot.serialNumber32), now))
    {
      ghost var f := Facts();
      if lba < FirstDataLba {
        MetadataSector(lba, buf.Length, f);
        ReadMetadata(lba, buf, now);
        NoEepromRead(eeprom.rx, eeprom.tx, eeprom.restarts, 0);
        written := SectorSize;
      } else {
        var a := Classify(lba);
        DataSector(lba, a.cluster, a.offset, buf[..], f, SerialFor(boot.serialNumberValid, boot.serialNumber32, now));
        written := ReadData(a.cluster, a.offset, buf);
      }
    }

    /** The blocks before the data area: the two boot sectors, both allocation tables and the root directory. */
    method ReadMetadata(lba: u32, buf: array<u8>, now: u32)
      requires lba < FirstDataLba && buf.Length >= SectorSize
      modifies buf, boot
      ensures lba <= 1 ==> boot.serialNumberValid && boot.serialNumber32 == SerialFor(old(boot.serialNumberValid), old(boot.serialNumber32), now)
      ensures lba > 1 ==> boot.serialNumberValid == old(boot.serialNumberValid) && boot.serialNumber32 == old(boot.serialNumber32)
      ensures buf[..] == SectorImage(lba, old(buf[..]), Facts(), SerialFor(old(boot.serialNumberValid), old(boot.serialNumber32), now))
    {
      match Classify(lba)
      case MasterBootRecord =>
        var sn := boot.SerialNumber32(now);
        WriteMbr(buf, sn);
      case BootRecord =>
        var sn := boot.SerialNumber32(now);
        WriteBootRecord(buf, sn);
      case Fat(_, _) =>
        var sector := MirrorFatBlock(lba - FirstFatLba);
        WriteFatSector(sector, buf);
      case RootDirectory(sector) =>
        WriteRootSector(sector, buf, eeprom.eepromSize, cart.romSize);
    }
  }

  /**
   * What a read of the EEPROM block `offset` does to the link: n answers
   * consumed, n read commands sent and n restarts at the block.  A read with
   * an EEPROM takes 64 of each; without one, or for any other block, none.
   */
  /** A read that leaves the link alone is the empty case of EepromRead. */
  lemma NoEepromRead(rx: seq<u32>, tx: seq<u32>, restarts: seq<nat>, offset: u32)
    ensures EepromRead(rx, rx, tx, tx, restarts, restarts, 0, offset)
  {
    assert rx[0..] == rx && tx + [] == tx && restarts + [] == restarts;
  }

  ghost predicate EepromRead(rx0: seq<u32>, rx: seq<u32>, tx0: seq<u32>, tx: seq<u32>,
                             restarts0: seq<nat>, restarts: seq<nat>, n: nat, offset: u32)
  {
    && n <= |rx0| && rx == rx0[n..]
    && tx == tx0 + Repeat(Encode([EepromReadCommand]), n)
    && restarts == restarts0 + Repeat([offset as nat], n)
  }
}
