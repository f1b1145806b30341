# DreamDump64 mass-storage core in Dafny

DreamDump64 is firmware for a Raspberry Pi Pico that sits between a PC and a
Nintendo 64 cartridge. It shows the cartridge to the PC as a USB mass-storage
disk of 256 MiB. The disk reports itself writable, but a write is accepted and
its data discarded, and every file entry carries the read-only attribute. The
disk is a synthesised FAT16 volume with seven files, all backed by the
cartridge:

- `ROM.N64` and `ROMF.Z64`: the ROM, byte-flipped in the second.
- `ROM.FLA` and `ROMF.RAM`: the SRAM or FlashRAM save.
- `ROM.EEP` and `ROMF.EEP`: the serial EEPROM save.
- `CARTTEST.TXT`: a text report of what the cartridge probe found.

Every block the PC reads is computed on demand. It is either a fixed record
(MBR, boot sector, FAT, root directory) or it is read from the cartridge over
one of two links. The parallel bus uses `set_address`, `read16` and `write16`;
the joybus is the EEPROM's one-wire serial protocol, driven through a PIO state
machine.

This project models that core and proves properties of it.

| module | file | models |
|---|---|---|
| `Bytes`, `Bits` | `bytes.dfy`, `bits.dfy` | unsigned widths, uint32 wrap-around, little-endian bytes, bitwise AND/OR on naturals |
| `CartTypes` | `cart_types.dfy` | `flip16` and the byte image of a word array (`n64cartinterface.h`) |
| `CartBus` | `cart_bus.dfy` | the parallel bus as a class: the cartridge is a function from byte address to word, the port records the latches and stores it issues |
| `CartProbe` | `cart_probe.dfy` | what `cartio_init` decides: ROM size search, FlashRAM identification, SRAM open bus, CIC hello and CIC name |
| `CartSave` | `cart_save.dfy` | the specifications of the save-memory transfers: word packing, erase/write decisions, bus traffic |
| `CartCrc` | `cart_crc.dfy` | `si_crc32`: bitwise CRC-32 specification, table construction, the table-driven loop |
| `CartInterface` | `cart_interface.dfy` | `cartio_init`, the FlashRAM/SRAM read and write routines as methods of a `Cart` class |
| `JoybusCodec` | `joybus_codec.dfy` | `convertToPio` on an array, proved against a bit-pair encoding with a decoding round trip |
| `Joybus` | `joybus.dfy` | `GetInputWithTimeout`, `InitEeprom`, `ReadEepromData`, `WriteEepromData` over a session class holding the PIO FIFOs |
| `VirtualDiskLayout` | `vdisk_layout.dfy` | volume geometry, block classification, boot sector, partition entry, FAT chains, directory entries, `tud_msc_write10_cb` |
| `VirtualDiskReport` | `vdisk_report.dfy` | the `sprintf` text of the cart-test report (`%s`, `%lu`, `%04X`, `%c`) |
| `VirtualDiskSectors` | `vdisk_sectors.dfy` | the image of every block as a function of the cartridge, and properties of the disk as a whole |
| `VirtualDisk` | `vdisk.dfy` | `tud_msc_read10_cb` and its per-region writers as methods over the caller's byte array |

The bus is deterministic: reading address `a` always yields `bus(a)`. The
`k`-th `read16` after `set_address(a)` therefore reads `bus(a + 2k)`, with the
sum wrapped to 32 bits. Writes are recorded in a trace and do not change
`bus`. A FlashRAM chip has two ways of answering on the save window: array
mode, where it answers with its stored data, and status mode, entered by the
identify command `0xE1000000` and left by the read-array command `0xF0000000`,
where it answers with its status register. The port keeps that mode, and a
second function `status` gives the answers in status mode; the ROM window
answers the same in either mode. Time (`time_us_32`), the CIC data pin and the
joybus FIFOs are given as input sequences.

## Model

| member | source | states |
|---|---|---|
| `Bytes.LeBytes32` | src/virtualdisk.c:320-321 | the four bytes `memcpy` copies from a uint32 are its little-endian digits, so they recombine to the value |
| `Bytes.WrapAdd` | src/n64cartinterface.c:452 | reducing a uint32 sum once or after every addition gives the same address |
| `Bits.AndCoversIff` | src/n64cartinterface.c:477 | `(n & s) == n` holds exactly when every 1 bit of `n` is also 1 in `s` (both directions) |
| `CartTypes.Flip16` | src/n64cartinterface.h:47-50 | the low byte of the result is the high byte of the input and vice versa |
| `CartTypes.Flip16AsWritten` | src/n64cartinterface.h:47-50 | `(x << 8)` cut to 16 bits, OR `x >> 8`, is the byte swap: the two parts share no bit |
| `CartTypes.Flip16Involutive` | src/n64cartinterface.h:47-50 | flipping twice returns the original word |
| `CartTypes.Flip16FixedIff` | src/n64cartinterface.h:47-50 | a word is unchanged by `flip16` exactly when its two bytes are equal |
| `CartTypes.WordBytesAt` | src/virtualdisk.c:547-549 | word `i` of a `uint16_t` view of the buffer occupies bytes `2i` (low) and `2i+1` (high) |
| `CartTypes.FlipWordsSwapsBytes` | src/virtualdisk.c:535-537 | flipping every word swaps each byte pair of the buffer's byte image, which is how the `.Z64` view differs from `.N64` |
| `CartBus.Write32Halves` | src/n64cartinterface.c:405-411 | `write32` stores the high half first, and the two halves recombine to the value |
| `CartBus.Word32Halves` | src/n64cartinterface.c:177 | `(read16() << 16) \| read16()` holds the word at `a` in its high half and the word at `a + 2` in its low half |
| `CartBus.ModeAfter` | src/n64cartinterface.c:232-251 | a store of `0xE1000000` at the command register puts the chip in status mode, `0xF0000000` puts it back in array mode, any other command keeps the mode |
| `CartBus.Word32OutsideWindow` | src/n64cartinterface.c:176-177 | a 32-bit read in the ROM window gets the same value whatever mode the FlashRAM is in |
| `CartBus.WordsOutsideWindow` | src/n64cartinterface.c:300-314 | so do `n` consecutive reads that stay in the ROM window |
| `CartBus.BusPort.SetAddress` | src/n64cartinterface.c:361-389 | latching sets the address the next read or write uses and records one latch |
| `CartBus.BusPort.Read16` | src/n64cartinterface.c:391-403 | returns the word the cartridge answers at the latched address in its current mode (status register or stored data); the cartridge advances the address by 2; the mode is unchanged |
| `CartBus.BusPort.Write16` | src/n64cartinterface.c:413-422 | records one store of the value and advances the address by 2 |
| `CartBus.BusPort.Write32` | src/n64cartinterface.c:405-411 | records the two 16-bit stores of the value, high half first; at the command register the chip's mode becomes the one the command selects |
| `CartBus.BusPort.Read32` | src/n64cartinterface.c:177 | two reads combined high-first in the current mode, with the address advanced by 4 |
| `CartBus.BusPort.ReadWords` | src/n64cartinterface.c:300-308 | `n` consecutive reads give the `n` words from the latched address, each flipped when asked |
| `CartProbe.EchoWordHalves` | src/n64cartinterface.c:214-215 | the open-bus pattern `v \| v << 16` carries `v` in both halves |
| `CartProbe.EchoWordIsOr` | src/n64cartinterface.c:214-215 | the bitwise OR the source computes equals the arithmetic pattern the model compares with |
| `CartProbe.FirstStepEnds` | src/n64cartinterface.c:200-227 | the ROM size search stops at a multiple of 4 MiB below 64 MiB where the ROM ends, or runs out at 64 |
| `CartProbe.FirstStepNoneBefore` | src/n64cartinterface.c:200-227 | no earlier step of the search satisfies the end test (mirror of the header, or open bus) |
| `CartProbe.FirstStepIs` | src/n64cartinterface.c:200-227 | the first step satisfying the end test is the one the search returns |
| `CartProbe.RomSizeOfSearch` | src/n64cartinterface.c:200-227 | `gRomSize` becomes `x` MiB for the first ending step `x`, and keeps its prior value when no step ends |
| `CartProbe.HelloNibble` | src/n64cartinterface.c:281-289 | bit `3 - x` of the hello nibble is set exactly when sample `x` of the DIO pin was high |
| `CartProbe.CicTypeOf` | src/n64cartinterface.c:291-297 | the CIC type is always one of PAL, NTSC or INVALID |
| `CartProbe.CicTypeFromSamples` | src/n64cartinterface.c:281-297 | PAL exactly for the samples low-high-low-high and NTSC exactly for low-low-low-high |
| `CartProbe.CicNameKnownIff` | src/n64cartinterface.c:316-357 | the name is not "Unknown" exactly when the CRC is one of the switch's ten cases, and different cases get different names |
| `CartProbe.CicNameUnlisted` | src/n64cartinterface.c:25-36 | the CRCs defined for 5101 and 7102 have no case, so those carts are named "Unknown" |
| `CartSave.PackWordAsWritten` | src/n64cartinterface.c:539-545 | the packed word is `b0 \| b1 << 8` (it fits in 16 bits), passed through `flip16` when flip is set |
| `CartSave.PackWordBytes` | src/n64cartinterface.c:539-545 | without flip the word's bytes are `b0, b1` in memory order; with flip they are swapped |
| `CartSave.SramWordsImage` | src/n64cartinterface.c:538-549 | the 256 words written hold the 512 buffer bytes in order, or pairwise swapped with flip |
| `CartSave.EraseNeededIff` | src/n64cartinterface.c:465-481 | an erase is needed exactly when some new word has a 1 bit where the stored word has 0, which flash programming cannot set |
| `CartSave.EraseImpliesDiffers` | src/n64cartinterface.c:477-485 | a chunk that needs erasing also differs, so it is always rewritten |
| `CartSave.ChunkOpsPieces` | src/n64cartinterface.c:451-531 | a chunk's bus traffic is: read mode and latch, then an erase if needed, then the page program if the chunk differs |
| `CartSave.ChunkUntouchedIff` | src/n64cartinterface.c:488-492 | the chunk is left alone (only the compare traffic) exactly when its stored words already equal the new ones |
| `CartSave.CommandBlock` | src/n64cartinterface.c:428 | OR-ing a block number below 2^24 into the erase or write-address command is plain addition |
| `CartSave.FlashReadChunk` | src/n64cartinterface.c:572-586 | words `64x .. 64x+63` of a FlashRAM read are chunk `x`'s stored words, flipped when asked |
| `CartSave.FlashReadMatchesCompare` | src/n64cartinterface.c:457-463 | the read routine and the write routine's compare pass see the same stored words for each chunk |
| `CartSave.FlashReadFlipped` | src/n64cartinterface.c:579-585 | a flipped FlashRAM read is the word-by-word flip of the plain read |
| `CartCrc.StepLinear` | src/n64cartinterface.c:79-85 | one reflected CRC shift step distributes over XOR |
| `CartCrc.StepsLinear` | src/n64cartinterface.c:79-85 | eight steps distribute over XOR too |
| `CartCrc.StepsOfHighPart` | src/n64cartinterface.c:96 | eight steps on a value with eight zero low bits is a shift right by 8 |
| `CartCrc.TableStep` | src/n64cartinterface.c:96 | the table-driven update `Table[(c ^ b) & 0xFF] ^ (c >> 8)` equals eight bitwise steps of `c ^ b` |
| `CartCrc.StepsBound` | src/n64cartinterface.c:77-89 | the register stays within 32 bits under any number of steps |
| `CartCrc.Crc32Empty` | src/n64cartinterface.c:94-99 | the CRC of no data is 0 |
| `CartCrc.Crc32Append` | src/n64cartinterface.c:94-99 | appending a byte runs eight steps on the register XOR the byte, then applies the final inversion |
| `CartCrc.CrcEngine.BuildTable` | src/n64cartinterface.c:76-92 | table entry `n` is eight bitwise steps of `n` |
| `CartCrc.CrcEngine.SiCrc32` | src/n64cartinterface.c:71-100 | returns the bitwise CRC-32 of the data, builds the table only once, and leaves it valid |
| `CartInterface.ReadCicHello` | src/n64cartinterface.c:281-289 | the loop OR-ing shifted samples yields the hello nibble |
| `CartInterface.Cart.ReadHeader` | src/n64cartinterface.c:176-177 | reads the 32-bit header word at `0x10000000` after one latch |
| `CartInterface.Cart.ProbeOpenBusAt` | src/n64cartinterface.c:210-221 | true exactly when all 256 probed pairs at step `x` echo their own address; latches stay in the ROM window |
| `CartInterface.Cart.ProbeRomStep` | src/n64cartinterface.c:201-226 | one step ends the search exactly when the header mirrors there or the bus is open |
| `CartInterface.Cart.ProbeRomSize` | src/n64cartinterface.c:200-227 | returns the size the first-match search specifies; latches stay in the ROM window |
| `CartInterface.Cart.IdentifyFlash` | src/n64cartinterface.c:232-251 | after the identify command the flash type is the low byte of the second status-register word; the chip is identified, and put back in array mode, exactly for the five known types behind the 0x11118001 status signature, and stays in status mode otherwise |
| `CartInterface.Cart.ProbeSramOpenBus` | src/n64cartinterface.c:254-265 | true exactly when all 256 SRAM pairs echo their address; latches stay within the first 512 bytes |
| `CartInterface.Cart.SnapshotSram` | src/n64cartinterface.c:267-273 | the open-bus snapshot costs one latch at the SRAM base |
| `CartInterface.Cart.ReadTitleAndCode` | src/n64cartinterface.c:300-308 | the title holds the flipped words at `0x10000020` and the game code the plain words at `0x1000003A` |
| `CartInterface.Cart.ReadBootCode` | src/n64cartinterface.c:310-314 | the buffer holds the 0x7E0 words at `0x10000040`, one latch per word |
| `CartInterface.Cart.CartioInit` | src/n64cartinterface.c:175-359 | a header that fails twice leaves every global unchanged; otherwise each global gets the value its probe specifies (ROM size, flash type, FRAM, SRAM, EEPROM size, CIC type, title, code, CIC name), the SRAM probe reads in the mode identification left the chip in, and the chip ends in status mode exactly when no FlashRAM was identified |
| `CartInterface.Cart.ProbeMemories` | src/n64cartinterface.c:200-273 | ROM size, flash type, FRAM and SRAM flags as specified; the identification fields are untouched |
| `CartInterface.Cart.InitSaveEeprom` | src/n64cartinterface.c:275-278 | the EEPROM size follows a zero info reply's second word; any other reply, or a timeout from a silent EEPROM, keeps its value; only the FIFO words the probe takes are required |
| `CartInterface.Cart.IdentifyCart` | src/n64cartinterface.c:280-357 | CIC type from the hello, title and code from the header, CIC name from the CRC of the boot code's bytes; the probed sizes are untouched |
| `CartInterface.Cart.SendFlashCommand` | src/n64cartinterface.c:427-428 | one latch at the command register, then the command's two halves |
| `CartInterface.Cart.PollStatus` | src/n64cartinterface.c:438-445 | one status poll: the identify command and the status latch; the chip is then in status mode |
| `CartInterface.Cart.EraseBlock` | src/n64cartinterface.c:424-446 | traffic is erase address, erase, execute, then the status poll |
| `CartInterface.Cart.CompareWord` | src/n64cartinterface.c:466-485 | for one word: erase is needed exactly when `new & stored != new`; a write is needed exactly when they differ |
| `CartInterface.Cart.CompareChunk` | src/n64cartinterface.c:465-486 | over the chunk's 64 stored words, the erase and write flags are the chunk-level specifications, including the early break |
| `CartInterface.Cart.FillPageBuffer` | src/n64cartinterface.c:498-512 | a latch at the page buffer, then the chunk's 64 packed words in order |
| `CartInterface.Cart.ProgramChunk` | src/n64cartinterface.c:494-530 | write mode, page buffer, write address, execute, poll, in that order, ending in status mode |
| `CartInterface.Cart.UpdateChunk` | src/n64cartinterface.c:488-530 | an erase only when needed, and a program when the chunk differs; the chip ends in status mode exactly when it was written or already was |
| `CartInterface.Cart.WriteChunk` | src/n64cartinterface.c:452-531 | one chunk's traffic is exactly the chunk specification, and the chip ends in status mode exactly when the chunk differed |
| `CartInterface.Cart.FlashRamWrite512B` | src/n64cartinterface.c:448-532 | the traffic is the four chunk specifications in order, and the final mode is that of the last chunk |
| `CartInterface.Cart.WriteSramWords` | src/n64cartinterface.c:538-549 | stores the first `n` packed words in order |
| `CartInterface.Cart.SramWrite512B` | src/n64cartinterface.c:534-566 | latch and 256 words, then latch again and the first two words again |
| `CartInterface.Cart.ReadInto` | src/n64cartinterface.c:579-585 | `n` reads fill exactly `buffer[start..start+n]`, flipped when asked |
| `CartInterface.Cart.ReadChunk` | src/n64cartinterface.c:573-585 | fills exactly chunk `x`'s 64 slots from the address `0x1E` chips halve |
| `CartInterface.Cart.FlashRamRead512B` | src/n64cartinterface.c:568-587 | the first 256 words are the FlashRAM read specification on the stored data (read-array mode), and the rest of the buffer is untouched |
| `CartInterface.Cart.SramRead512B` | src/n64cartinterface.c:589-599 | the 256 words at `address + 0x08000000` in the chip's current mode, flipped when asked, and the rest of the buffer is untouched |
| `JoybusCodec.Encode` | src/joybus.c:28-46 | an empty command encodes to nothing; otherwise to `len / 2 + 1` slots |
| `JoybusCodec.SlotBound` | src/joybus.c:38-45 | no slot overflows 32 bits, so the `uint32_t` additions never wrap |
| `JoybusCodec.PairStep` | src/joybus.c:38-43 | adding pair `t` raises only slot `t / 16`, by the timing bit and the data bit at its position |
| `JoybusCodec.SlotAdd` | src/joybus.c:40-41 | the two additions for bit `j` of byte `i` add `2^(2k+1)` and the data bit times `2^(2k)`, for `k = 8(i % 2) + j` |
| `JoybusCodec.EndStep` | src/joybus.c:45 | the stop marker adds 3 at the pair after the last byte and changes no other slot |
| `JoybusCodec.EncodedDigit` | src/joybus.c:38-43 | the pair for bit `j` of byte `i` is 2 plus the data bit |
| `JoybusCodec.EncodeMarkerBit` | src/joybus.c:40 | the upper bit of every data pair is 1 |
| `JoybusCodec.EncodeDataBit` | src/joybus.c:41 | the lower bit of pair `j` is bit `7 - j` of the byte, most significant first |
| `JoybusCodec.EncodeEndMarker` | src/joybus.c:45 | the pair after the last byte is `11` and every pair beyond it is zero |
| `JoybusCodec.EncodeDecode` | src/joybus.c:28-46 | reading back the low bits of a byte's eight pairs recovers the byte (round trip) |
| `JoybusCodec.ClearSlots` | src/joybus.c:34-37 | after zeroing, every slot equals its value with no pair added |
| `JoybusCodec.AddPair` | src/joybus.c:40-41 | one inner iteration moves the slot invariant from pair `8i + j` to `8i + j + 1` |
| `JoybusCodec.AddBytes` | src/joybus.c:38-43 | after the nested loops every data pair of every byte is in its slot |
| `JoybusCodec.AddEnd` | src/joybus.c:45 | the end bit completes the encoding |
| `JoybusCodec.ConvertToPio` | src/joybus.c:28-46 | `len == 0` leaves the result untouched with length 0; otherwise `result[..len/2+1]` is the encoding of `command[..len]` and nothing beyond it changes |
| `Joybus.ExpiryFromFirst` | src/joybus.c:69-89 | the wait gives up at the first clock reading more than 100000 us past a nonzero start, measured as a uint32 difference, and never before |
| `Joybus.ZeroStartNeverTimesOut` | src/joybus.c:71-82 | a start time of 0 disables the timeout, so `0xFFFFFFFF` can then only be data |
| `Joybus.Geometry` | src/joybus.c:136-149 | the EEPROM size is always 8 times the read count, and is 0, 512 or 2048 |
| `Joybus.GeometryIff` | src/joybus.c:136-149 | 512 bytes exactly for id 0x80, 2048 exactly for 0xC0, 0 for any other id |
| `Joybus.EepromSession.Get` | src/joybus.c:133-134 | takes the head of the receive FIFO and changes nothing else |
| `Joybus.EepromSession.Send` | src/joybus.c:122-126 | restarts the state machine at the given offset and queues the words |
| `Joybus.EepromSession.GetInputWithTimeout` | src/joybus.c:69-89 | returns the head of the FIFO or the timeout word as specified, consuming a word only when one was there |
| `Joybus.EepromSession.InitEeprom` | src/joybus.c:92-151 | sends the encoded info command; on a zero reply, takes two more words and sets the size from the second; otherwise keeps the old size. It requires the first wait to end within the clock readings given, since `GetInputWithTimeout` (lines 71-86) never times out when its start reading is 0 |
| `Joybus.EepromSession.ReadBlock` | src/joybus.c:161-178 | sends the encoded first command byte and stores the low byte of one reply at `buffer[ReadIndex]` |
| `Joybus.EepromSession.ReadBlocks` | src/joybus.c:160-179 | the first 64 bytes are the low bytes of the next 64 replies, the rest of the buffer is untouched, and 64 commands go out |
| `Joybus.EepromSession.ReadEepromData` | src/joybus.c:153-180 | with no EEPROM, nothing happens; otherwise as `ReadBlocks` |
| `Joybus.EepromSession.WriteBlock` | src/joybus.c:186-212 | sends one encoded command byte, consumes two replies, and waits 1 ms exactly when the second is nonzero |
| `Joybus.EepromSession.WriteEepromData` | src/joybus.c:182-214 | 64 commands and 128 replies; the total wait counts the nonzero second replies |
| `VirtualDiskLayout.GeometryFacts` | src/virtualdisk.c:22-77 | the volume constants and their static assertions: 256 MiB, 512-byte sectors, 32 KiB clusters, at most 65526 clusters, 33 sectors per FAT |
| `VirtualDiskLayout.RegionsAreContiguous` | src/virtualdisk.c:152-161 | the seven file regions follow each other in cluster order, without gaps |
| `VirtualDiskLayout.SourceOfRegion` | src/virtualdisk.c:456-574 | the dispatch on cluster number picks the region that contains the cluster |
| `VirtualDiskLayout.BeyondTextIsFlippedSave` | src/virtualdisk.c:514 | clusters past the text file fall into the flipped-save branch |
| `VirtualDiskLayout.RegionAddressInWindow` | src/virtualdisk.c:509-557 | outside the EEPROM region, a block's address is its offset within the region, and a whole sector fits in the region |
| `VirtualDiskLayout.EepromAddressWraps` | src/virtualdisk.c:571-573 | the EEPROM branch subtracts the FlashRAM start, so its uint32 address wraps to just below 2^32 and the EEPROM block number it passes is `0x3FFFE00 + 8 * offset` |
| `VirtualDiskLayout.ClassifyRoundTrip` | src/virtualdisk.c:291-452 | every block number maps to a valid area that maps back to it |
| `VirtualDiskLayout.AreaRoundTrip` | src/virtualdisk.c:291-452 | every valid area maps to a block that classifies back to it |
| `VirtualDiskLayout.AreaBoundaries` | src/virtualdisk.c:291-452 | the FATs start at block 2, the root directory at 68, data at 100, with 64 blocks per cluster |
| `VirtualDiskLayout.FatDivMod` | src/virtualdisk.c:351-352 | a block of the FAT area splits uniquely into a copy and a block of that copy, which is how the classification names FAT blocks |
| `VirtualDiskLayout.ClusterDivMod` | src/virtualdisk.c:450-452 | `lba >> 6` and `lba - (cluster << 6)` are the cluster and the block within it |
| `VirtualDiskLayout.BootSectorGeometry` | src/virtualdisk.c:89-114 | the BIOS parameter block holds the sector size, cluster size, reserved count, FAT count, root entries, sector count, media byte and FAT size |
| `VirtualDiskLayout.BootSectorCounts` | src/virtualdisk.c:115-140 | hidden sectors, the 32-bit sector count, the extended signature 0x29, a zero serial and the `jmp $` tail |
| `VirtualDiskLayout.PartitionCoversVolume` | src/virtualdisk.c:306-318 | the partition entry is FAT16 LBA from block 1 to the end of the disk, and agrees with the boot sector's hidden sectors |
| `VirtualDiskLayout.RecordSectorsAgree` | src/virtualdisk.c:291-349 | the MBR and boot record share the partition entry, the signature and the serial; the boot record also carries the serial at 0x27 and is the boot sector elsewhere |
| `VirtualDiskLayout.FileChains` | src/virtualdisk.c:355-396 | each file's FAT entries form one chain over exactly its region's clusters, ending in 0xFFFF, and the media entries are 0xFFF8 and 0xFFFF |
| `VirtualDiskLayout.FatCopiesAgree` | src/virtualdisk.c:352-354 | a block and the block `SECTORS_PER_FAT` after it are the same sector of the two FAT copies |
| `VirtualDiskLayout.TimestampDecodes` | src/virtualdisk.c:46-49 | the packed time and date are 16:20:50 (two-second resolution) on 5 September 2008 |
| `VirtualDiskLayout.FileEntry` | src/virtualdisk.c:246-257 | a file entry is read-only and archive (0x21), and carries the given name and size |
| `VirtualDiskLayout.RootImageEntries` | src/virtualdisk.c:405-445 | slot `i` of root sector 0 holds the 32-byte encoding of directory entry `i` |
| `VirtualDiskLayout.DirectoryClustersMatchRegions` | src/virtualdisk.c:411-443 | the running `cluster_offset` meets each of the source's asserts: file `i` starts at its region's start plus 2 |
| `VirtualDiskLayout.DirectoryMatchesFat` | src/virtualdisk.c:411-444 | each file's entry points at the head of its FAT chain, the chain lies within the FAT written, and the size fits the region |
| `VirtualDiskLayout.RootEntriesOrder` | src/virtualdisk.c:405-445 | entry 0 is the volume label copied from the boot sector; entries 1 to 7 are the seven files in region order |
| `VirtualDiskLayout.EepromText` | src/virtualdisk.c:464-472 | "Failed" exactly when the EEPROM size is none of 0, 512 and 2048 |
| `VirtualDiskLayout.CicText` | src/virtualdisk.c:465-479 | "Failed" exactly when the CIC type is neither PAL nor NTSC |
| `VirtualDiskLayout.PresentText` | src/virtualdisk.c:494-495 | "OK!" exactly when the flag is nonzero |
| `VirtualDiskLayout.Write10` | src/virtualdisk.c:598-614 | -1 for a block past the disk; otherwise the `int32_t` whose 32 bits are the buffer size: in the `int32_t` range and equal to the size modulo 2^32 |
| `VirtualDiskReport.DecimalRoundTrip` | src/virtualdisk.c:487 | the `%lu` digits read back as the number |
| `VirtualDiskReport.DecimalNoLeadingZero` | src/virtualdisk.c:487 | the first digit is 0 exactly for the number 0 |
| `VirtualDiskReport.DecimalLength` | src/virtualdisk.c:487 | a number below `10^k` takes at most `k` digits |
| `VirtualDiskReport.HexRoundTrip` | src/virtualdisk.c:489 | the `%04X` and `%02X` digits read back as the number when it fits the width |
| `VirtualDiskReport.CString` | src/virtualdisk.c:499 | `%s` of the title copies the bytes before the first NUL, and the NUL (if any) follows them |
| `VirtualDiskReport.CStringPrefix` | src/virtualdisk.c:499 | a buffer with its first NUL at `n` reads as its first `n` bytes |
| `VirtualDiskReport.ReportStringsShort` | src/virtualdisk.c:459-479 | every string the report selects is at most 11 characters |
| `VirtualDiskReport.ReportFits` | src/virtualdisk.c:481-504 | with those strings, a CIC name of at most 16 characters and a 22-word title, the report and its NUL fit in one sector |
| `VirtualDiskReport.ReportBlockText` | src/virtualdisk.c:457-504 | the report sector read as a C string is exactly the report text |
| `VirtualDiskSectors.EepromBytes` | src/virtualdisk.c:571-574 | an EEPROM read changes at most the first 64 bytes of the buffer |
| `VirtualDiskSectors.FatMirror` | src/virtualdisk.c:352-354 | both FAT copies read the same |
| `VirtualDiskSectors.FatBlockWords` | src/virtualdisk.c:355-396 | word `x` of FAT sector `s` is FAT entry `256s + x` |
| `VirtualDiskSectors.FatTail` | src/virtualdisk.c:386-399 | sector 16 leaves everything past entry 12 as it was, and sectors past it are zero |
| `VirtualDiskSectors.RootBlockEntries` | src/virtualdisk.c:405-445 | slot `i` of the first root block is the encoding of entry `i` |
| `VirtualDiskSectors.RootBlockZeros` | src/virtualdisk.c:446-448 | the rest of the first root block, and every other root block, is zero |
| `VirtualDiskSectors.FileBlocksReadTheirWindow` | src/virtualdisk.c:450-574 | a block of a file, located through its FAT cluster, is dispatched to that file's region at the matching offset |
| `VirtualDiskSectors.SaveAnswers` | src/virtualdisk.c:514-528 | the save files read the stored data when FlashRAM is present (read mode is sent first), and otherwise whatever the chip answers in its current mode |
| `VirtualDiskSectors.RomFileByteOrder` | src/virtualdisk.c:530-553 | `ROM.N64` holds each ROM word little-endian; `ROMF.Z64` holds it big-endian |
| `VirtualDiskSectors.CartTestBlocks` | src/virtualdisk.c:456-507 | the first text block is the report followed by zeros, the other text blocks are zero, and nothing past 512 bytes changes |
| `VirtualDiskSectors.RecordBlocks` | src/virtualdisk.c:291-349 | blocks 0 and 1 carry the same partition entry, the signature, and the serial as the volume serial |
| `VirtualDisk.BootDeviceState.SerialNumber32` | src/virtualdisk.c:264-270 | the first call stores the current time; later calls return the stored value |
| `VirtualDisk.Memset` | src/virtualdisk.c:292 | zeroes the first `n` bytes and keeps the rest |
| `VirtualDisk.CopyBytes` | src/virtualdisk.c:315 | `memcpy` places the bytes at the offset and keeps the rest |
| `VirtualDisk.StoreWord` | src/virtualdisk.c:358 | a `uint16_t` store writes the word's two little-endian bytes |
| `VirtualDisk.StoreChain` | src/virtualdisk.c:365-367 | the loop stores `lba * 0x100 + x + 1`, truncated to 16 bits, at words `from .. to-1` |
| `VirtualDisk.WriteMbr` | src/virtualdisk.c:291-323 | the buffer becomes the MBR image for the serial |
| `VirtualDisk.WriteBootRecord` | src/virtualdisk.c:327-349 | the buffer becomes the boot record image for the serial |
| `VirtualDisk.WriteFatHead` | src/virtualdisk.c:356-364 | the first seven FAT words are the fixed head entries, and the rest of the buffer is zero |
| `VirtualDisk.WriteFatFirst` | src/virtualdisk.c:355-367 | FAT sector 0 as specified |
| `VirtualDisk.WriteFatLast` | src/virtualdisk.c:386-396 | FAT sector 16 as specified |
| `VirtualDisk.MirrorFatBlock` | src/virtualdisk.c:352-354 | subtracting `SECTORS_PER_FAT` while the block is not below it ends at the block's remainder, which for a block of the second copy is the same block of the first |
| `VirtualDisk.WriteFatSector` | src/virtualdisk.c:355-399 | every FAT sector as specified, keeping the bytes the source leaves alone |
| `VirtualDisk.InitDirEntry` | src/virtualdisk.c:246-257 | writes the fields `init_dir_entry` sets and keeps the rest |
| `VirtualDisk.InitializedOnZeros` | src/virtualdisk.c:246-257 | on a zeroed slot, `init_dir_entry` produces exactly the file entry's encoding |
| `VirtualDisk.SectorZeroEntriesLow` | src/virtualdisk.c:409-424 | the label and the first three files with clusters 2, 3 and 7 |
| `VirtualDisk.SectorZeroEntriesHigh` | src/virtualdisk.c:426-444 | the last four files with clusters 2055, 4103, 4107 and 4108 |
| `VirtualDisk.AddLabelEntry` | src/virtualdisk.c:409-410 | slot 0 becomes the volume label and the rest stays zero |
| `VirtualDisk.AddFileEntry` | src/virtualdisk.c:414-444 | slot `i` becomes file entry `i`, the earlier slots are kept and the rest stays zero |
| `VirtualDisk.WriteRootSector` | src/virtualdisk.c:403-448 | the buffer becomes the root directory image of the sector |
| `VirtualDisk.ReadWordsInto` | src/virtualdisk.c:527-529 | 256 reads fill the first 512 bytes with the words' little-endian bytes, flipped when asked |
| `VirtualDisk.RomPassesAreRomBytes` | src/virtualdisk.c:545-553 | `p` passes of 512 bytes from consecutive addresses are the `256p` ROM words in order |
| `VirtualDisk.RomPass` | src/virtualdisk.c:546-552 | one pass appends the next 512 ROM bytes after one latch |
| `VirtualDisk.FlipSectorWords` | src/virtualdisk.c:511-513 | flipping the first 256 words swaps each byte pair of the first 512 bytes |
| `VirtualDisk.PrintText` | src/virtualdisk.c:457-504 | the sector becomes the text followed by zeros |
| `VirtualDisk.Disk.ReadCartTest` | src/virtualdisk.c:456-507 | the report at block 0 of the text file, zeros at its other blocks, the rest of the buffer untouched |
| `VirtualDisk.Disk.ReadSave` | src/virtualdisk.c:514-529 | read mode first when FlashRAM is present, then 256 save words at the region address in the resulting mode, flipped for `ROMF.RAM` (the unflipped `ROM.FLA` path at lines 554-569 is the same code); status mode survives only without FlashRAM |
| `VirtualDisk.Disk.ReadRomFlipped` | src/virtualdisk.c:530-537 | 256 flipped ROM words at the region address |
| `VirtualDisk.Disk.ReadRom` | src/virtualdisk.c:538-553 | fills the whole buffer, 512 bytes per pass from consecutive addresses, and reports its full size |
| `VirtualDisk.Disk.ReadEepromFlipped` | src/virtualdisk.c:508-513 | the EEPROM read at the block number, then every word of the sector flipped |
| `VirtualDisk.Disk.ReadEeprom` | src/virtualdisk.c:571-574 | the EEPROM read at the (wrapped) block number |
| `VirtualDisk.Disk.ReadCartWindow` | src/virtualdisk.c:514-569 | the bus-backed regions as specified; only the ROM path needs a buffer size that is a multiple of 512; only a save read with FlashRAM present leaves status mode |
| `VirtualDisk.Disk.ReadData` | src/virtualdisk.c:450-574 | every data block as specified, with 512 written except for the full-buffer ROM read; only the ROM path needs a buffer size that is a multiple of 512 |
| `VirtualDisk.Disk.Read10` | src/virtualdisk.c:274-582 | the buffer becomes the image of the block, the bus and joybus traffic and the return value are as specified, and the serial is set only by blocks 0 and 1; FAT blocks are mirrored by the subtraction loop; the chip leaves status mode only for a save block read with FlashRAM present |

## Left out

- USB stack callbacks other than read10 and write10 (inquiry, capacity, start/stop, unit ready, SCSI passthrough): they return constants or set sense codes.
- The spin `lock` around read10: no concurrency is modelled.
- The `lun` and `offset` arguments of read10: the source ignores them.
- GPIO direction switching, the LED, `sleep_*` and `busy_wait_*` delays and the PIO program set-up (`InitEepromClock`, `pio_sm_init`): timing and pin configuration are not modelled. The bus is a function from address to word and the joybus FIFOs are sequences.
- `time_us_32` is a parameter (`now` or a sequence of clock readings). The model takes any data already queued in the receive FIFO before looking at the clock, so a reply racing the timeout is not modelled.
- Joybus.EepromSession.ReadBlock: the command byte `ReadIndex + offset` is built, but `convertToPio` is called with length 1, so only the first byte goes out. The model sends exactly that and does not model the unsent byte.
- Joybus.EepromSession.WriteBlock: likewise only the command byte `0x05` is encoded, and the eight data bytes copied into the command are never sent. The model requires 71 buffer bytes, which covers the source's reads `buffer[i + ReadIndex]`.
- CartInterface.Cart.EraseBlock: the flash status loop is one poll under the requirement that the status register reads ready (`CartSave.FlashReady`); the same holds for `PollStatus`, `ProgramChunk`, `UpdateChunk`, `WriteChunk` and `FlashRamWrite512B`. The status register is a fixed function, so it cannot become ready later, and a chip that never does would loop forever in the source.
- CartBus.BusPort: of the FlashRAM's modes only status mode and array mode are modelled. The erase and write-mode commands keep the mode, and an erase or a page program does not change the stored data the bus answers with. A cartridge without FlashRAM is given a `status` function; the model makes no assumption about it, so its answers in status mode are whatever that function says.
- CartBus.Word32At: the source's `(read16() << 16) | read16()` leaves the order of the two calls unspecified in C. The model, and `CartBus.BusPort.Read32`, take the left call first, so the word at `a` is the high half.
- Joybus.EepromSession.InitEeprom: the wait for the info reply must end within the clock readings given (`requires InputOutcome(rx, clock).Some?`). The source's wait never ends when the start reading is 0 and no reply comes; that hang is not modelled. `CartInterface.Cart.CartioInit` and `InitSaveEeprom` carry the same requirement for the info reply; a silent EEPROM with a nonzero start reading times out and needs no FIFO word.
- Joybus.EepromSession.InitEeprom, WriteEepromData, ReadEepromData and CartInterface.Cart.InitSaveEeprom: after a zero info reply `InitEeprom` requires two more FIFO words, `WriteEepromData` requires its 128 replies, and a read of a nonzero-size EEPROM requires its 64 replies. The source takes these with the blocking `pio_sm_get_blocking` (joybus.c:130-131, 205-207), which hangs while the FIFO is empty; that hang is not modelled.
- CartInterface.Cart.CartioInit: when the header still fails after the second read, the source asserts and then spins; the model returns `false` with every global unchanged. The LED and reset-line sequence before the header read is left out.
- CartInterface.Cart.ProbeMemories: `readarr` is not kept. The SRAM snapshot only records its latch, because the disk never reads that array.
- CartInterface.Cart.constructor: `gCICName` starts as a null pointer in C; the model starts it as the empty string.
- VirtualDiskReport.ReportFits: `(char*)gGameTitle` is a string with no NUL guarantee. The model reads at most the 44 title bytes, where the C code would read on past the array.
- VirtualDiskReport.ReportBlock: a report of 512 bytes or more would overrun the sector in C. The model cuts it at the sector's end. `ReportFits` shows that the firmware's strings never get there.
- VirtualDisk.Disk.ReadRom: the source loops `while (buf_size)` and subtracts 512 per pass, so a size that is not a multiple of 512 would wrap around. The model requires a multiple of 512 for the ROM path only (`ReadRom`, and `ReadCartWindow`, `ReadData` and `Read10` when the block is in `ROM.N64`).
- VirtualDisk.Disk.Read10: the return value is the byte count as a mathematical integer; the conversion of a count of 2^31 or more to `int32_t` is not modelled.
- VirtualDisk.ReadWordsInto: the 256 words are read first and then stored, rather than stored one by one. Same final state, but the interleaving is not modelled.
- VirtualDiskLayout.DirectoryMatchesFat: proved for EEPROM sizes up to 2048 and ROM sizes up to 64 MiB, the values the probes can produce.
- `VirtualDisk.WriteFatFirst`, `WriteFatHead`, `WriteFatLast`, `VirtualDisk.Disk.ReadCartWindow`, `Joybus.EepromSession.ReadBlocks`, `CartInterface.Cart.UpdateChunk`, `WriteSramWords`, `JoybusCodec.ClearSlots` and `AddBytes` are pieces of one C function each. They run the same statements in the same order.
- The CRC-32 check value of "123456789" is not proved: evaluating the bitwise definition on a concrete input is too costly for the verifier.
