/*
 * The SI EEPROM session over the joybus state machine: probing the EEPROM
 * size, reading and writing 64 blocks.  The state machine's receive FIFO is
 * the sequence of words the cartridge answers with; what the firmware pushes
 * into the transmit FIFO, and the instruction each restart of the state
 * machine is given, are kept as histories.  Clock readings are a parameter.
 */
module Joybus {
  import opened Bytes
  import opened JoybusCodec

  datatype Option<T> = None | Some(value: T)

  /** The word GetInputWithTimeout returns when the cartridge stays silent. */
  const TimeoutWord: u32 := 0xFFFF_FFFF
  /** Microseconds of silence after which GetInputWithTimeout gives up. */
  const TimeoutMicros: nat := 100000

  const EepromInfoCommand: u8 := 0x00
  const EepromReadCommand: u8 := 0x04
  const EepromWriteCommand: u8 := 0x05

  /** The first clock reading k at or after `from` that lies more than the timeout past start (uint32_t difference). */
  function ExpiryFrom(start: u32, clock: seq<u32>, from: nat): Option<nat>
    decreases |clock| - from
  {
    if from >= |clock| then None
    else if start != 0 && Wrap32(clock[from] as int - start as int) > TimeoutMicros then Some(from)
    else ExpiryFrom(start, clock, from + 1)
  }

  /**
   * What GetInputWithTimeout returns, given the receive FIFO and the readings of
   * time_us_32 (the first is the start time); None while it is still waiting.
   */
  function InputOutcome(rx: seq<u32>, clock: seq<u32>): Option<u32>
  {
    if |clock| == 0 then None
    else if |rx| > 0 then Some(rx[0])
    else if ExpiryFrom(clock[0], clock, 1).Some? then Some(TimeoutWord)
    else None
  }

  /** The wait gives up only after a reading more than the timeout past a nonzero start, and at the first such reading. */
  lemma {:induction false} ExpiryFromFirst(start: u32, clock: seq<u32>, from: nat)
    ensures ExpiryFrom(start, clock, from).Some? ==>
      var k := ExpiryFrom(start, clock, from).value;
      from <= k < |clock| && start != 0 && Wrap32(clock[k] as int - start as int) > TimeoutMicros
      && forall j :: from <= j < k ==> Wrap32(clock[j] as int - start as int) <= TimeoutMicros
    ensures ExpiryFrom(start, clock, from).None? ==>
      start == 0 || forall j :: from <= j < |clock| ==> Wrap32(clock[j] as int - start as int) <= TimeoutMicros
    decreases |clock| - from
  {
    if from < |clock| && !(start != 0 && Wrap32(clock[from] as int - start as int) > TimeoutMicros) {
      ExpiryFromFirst(start, clock, from + 1);
    }
  }

  /** A start time of zero disables the timeout: the wait then ends only with data. */
  lemma ZeroStartNeverTimesOut(rx: seq<u32>, clock: seq<u32>)
    requires |clock| > 0 && clock[0] == 0
    ensures InputOutcome(rx, clock) == Some(TimeoutWord) ==> |rx| > 0 && rx[0] == TimeoutWord
  {
    ExpiryFromFirst(0, clock, 1);
  }

  /** The (ReadCount, gEepromSize) pair for the second word of the info answer. */
  function Geometry(id: u32): (g: (u32, u32))
    ensures g.1 == 8 * g.0
    ensures g.1 == 0 || g.1 == 512 || g.1 == 2048
  {
    if id == 0x80 then (64, 512)
    else if id == 0xC0 then (256, 2048)
    else (0, 0)
  }

  /** The 4 Kbit part answers 0x80, the 16 Kbit part 0xC0; anything else reads as absent. */
  lemma GeometryIff(id: u32)
    ensures Geometry(id).1 == 512 <==> id == 0x80
    ensures Geometry(id).1 == 2048 <==> id == 0xC0
    ensures Geometry(id).1 == 0 <==> id != 0x80 && id != 0xC0
  {
  }

  /** The low byte of a received word, as `(uint8_t)pio_sm_get_blocking(...)`. */
  function LowBytes(ws: seq<u32>): (bs: seq<u8>)
    ensures |bs| == |ws|
  {
    seq(|ws|, k requires 0 <= k < |ws| => ws[k] % 0x100)
  }

  /** Storing the low byte of word i over byte i extends the converted prefix by one. */
  lemma LowBytesStep(ws: seq<u32>, rest: seq<u8>, i: nat)
    requires i < |ws| && i < |rest|
    ensures (LowBytes(ws[..i]) + rest[i..])[i := ws[i] % 0x100] == LowBytes(ws[..i + 1]) + rest[i + 1..]
  {
    var a := (LowBytes(ws[..i]) + rest[i..])[i := ws[i] % 0x100];
    var b := LowBytes(ws[..i + 1]) + rest[i + 1..];
    assert |a| == |b|;
    forall k | 0 <= k < |a|
      ensures a[k] == b[k]
    {
      if k < i {
        assert ws[..i][k] == ws[..i + 1][k];
      }
    }
  }

  /** Cutting a concatenation where its parts meet gives the parts back. */
  lemma SplitAt<T>(whole: seq<T>, front: seq<T>, back: seq<T>)
    requires whole == front + back
    ensures whole[..|front|] == front && whole[|front|..] == back
  {
  }

  /** n copies of a run of words. */
  function Repeat<T>(ws: seq<T>, n: nat): seq<T>
  {
    if n == 0 then [] else Repeat(ws, n - 1) + ws
  }

  /** Per iteration of WriteEepromData: whether the second answer byte asked for the 1 ms wait. */
  function WriteWaits(rx: seq<u32>, n: nat): (w: nat)
    requires 2 * n <= |rx|
    ensures w <= n
  {
    if n == 0 then 0 else WriteWaits(rx, n - 1) + (if rx[2 * n - 1] % 0x100 != 0 then 1 else 0)
  }

  /** The joybus state machine talking to the cartridge's EEPROM. */
  class EepromSession {
    /** Words the cartridge will still deliver to the receive FIFO, in order. */
    var rx: seq<u32>
    /** Words pushed into the transmit FIFO so far. */
    var tx: seq<u32>
    /** For each restart of the state machine, the value added to the out-mode entry point. */
    var restarts: seq<nat>
    /** Where the joybus program was loaded into the PIO instruction memory. */
    var programOffset: nat
    /** ReadCount */
    var readCount: u32
    /** gEepromSize: 0, 512 or 2048 bytes. */
    var eepromSize: u32
    /** Milliseconds spent in the post-write wait. */
    var waitedMs: nat

    constructor(rx: seq<u32>)
      ensures this.rx == rx && tx == [] && restarts == [] && programOffset == 0
      ensures readCount == 0 && eepromSize == 0 && waitedMs == 0
    {
      this.rx := rx;
      tx := [];
      restarts := [];
      programOffset := 0;
      readCount := 0;
      eepromSize := 0;
      waitedMs := 0;
    }

    /** pio_sm_get_blocking: the next word the cartridge sends. */
    method Get() returns (w: u32)
      requires |rx| > 0
      modifies this
      ensures w == old(rx)[0] && rx == old(rx)[1..]
      ensures tx == old(tx) && restarts == old(restarts) && programOffset == old(programOffset)
      ensures readCount == old(readCount) && eepromSize == old(eepromSize) && waitedMs == old(waitedMs)
    {
      w := rx[0];
      rx := rx[1..];
    }

    /** Restart the state machine in out mode and push the encoded command. */
    method Send(words: seq<u32>, restartAt: nat)
      modifies this
      ensures tx == old(tx) + words && restarts == old(restarts) + [restartAt]
      ensures rx == old(rx) && programOffset == old(programOffset)
      ensures readCount == old(readCount) && eepromSize == old(eepromSize) && waitedMs == old(waitedMs)
    {
      restarts := restarts + [restartAt];
      tx := tx + words;
    }

    /** GetInputWithTimeout: the next word, or the timeout word after more than 100 ms of silence. */
    method GetInputWithTimeout(clock: seq<u32>) returns (r: Option<u32>)
      modifies this
      ensures r == InputOutcome(old(rx), clock)
      ensures r.Some? && |old(rx)| > 0 ==> rx == old(rx)[1..]
      ensures r.None? || |old(rx)| == 0 ==> rx == old(rx)
      ensures tx == old(tx) && restarts == old(restarts) && programOffset == old(programOffset)
      ensures readCount == old(readCount) && eepromSize == old(eepromSize) && waitedMs == old(waitedMs)
    {
      if |clock| == 0 {
        return None;
      }
      var lastWriteTime := clock[0];
      var k := 1;
      r := None;
      while k <= |clock|
        invariant 1 <= k <= |clock| + 1
        invariant |rx| == 0 ==> ExpiryFrom(clock[0], clock, 1) == ExpiryFrom(clock[0], clock, k)
        invariant rx == old(rx) && r.None? && lastWriteTime == clock[0]
        invariant k >= 2 ==> |rx| == 0
        decreases |clock| + 1 - k
      {
        if |rx| > 0 {
          var w := Get();
          r := Some(w);
          return;
        }
        if k == |clock| {
          break;
        }
        var now := clock[k];
        var diff := Wrap32(now as int - lastWriteTime as int);
        if lastWriteTime != 0 && diff > TimeoutMicros {
          lastWriteTime := 0;
          r := Some(TimeoutWord);
          return;
        }
        k := k + 1;
      }
    }

    /**
     * InitEeprom: load the program at loadedAt, send the info command and size
     * the EEPROM from the answer; an answer other than 0 leaves the size as it
     * was.  The wait for the answer must end within the clock readings given:
     * with a start time of 0 and no answer the firmware waits forever.
     */
    method InitEeprom(loadedAt: nat, clock: seq<u32>)
      requires InputOutcome(rx, clock).Some?
      requires InputOutcome(rx, clock) == Some(0) ==> |rx| >= 3
      modifies this
      ensures programOffset == loadedAt && restarts == old(restarts) + [loadedAt]
      ensures tx == old(tx) + Encode([EepromInfoCommand])
      ensures InputOutcome(old(rx), clock) == Some(0) ==>
        (readCount, eepromSize) == Geometry(old(rx)[1]) && rx == old(rx)[3..]
      ensures InputOutcome(old(rx), clock) != Some(0) ==>
        readCount == old(readCount) && eepromSize == old(eepromSize) &&
        (rx == old(rx) || (|old(rx)| > 0 && rx == old(rx)[1..]))
      ensures waitedMs == old(waitedMs)
    {
      programOffset := loadedAt;
      var result := new u32[8];
      var command := [EepromInfoCommand];
      var resultLen := ConvertToPio(command, 1, result);
      assert command[..1] == command;
      Send(result[..resultLen], programOffset);
      var first := GetInputWithTimeout(clock);
      if first == Some(0) {
        var id := Get();
        var extra := Get();
        assert rx == old(rx)[3..];
        readCount, eepromSize := Geometry(id).0, Geometry(id).1;
      }
    }

    /**
     * One iteration of ReadEepromData: the read command, then the answer's low
     * byte stored at buffer[readIndex].  As written, the command is encoded
     * with length 1, so only the command byte goes out, and the state machine
     * restarts at `offset`.
     */
    method ReadBlock(offset: u32, buffer: array<u8>, readIndex: nat)
      requires readIndex < 64 <= buffer.Length && |rx| >= 1
      modifies this, buffer
      ensures buffer[..] == old(buffer[..])[readIndex := old(rx)[0] % 0x100]
      ensures rx == old(rx)[1..] && tx == old(tx) + Encode([EepromReadCommand])
      ensures restarts == old(restarts) + [offset as nat]
      ensures programOffset == old(programOffset) && readCount == old(readCount)
      ensures eepromSize == old(eepromSize) && waitedMs == old(waitedMs)
    {
      var command := [EepromReadCommand, (readIndex + offset) % 0x100];
      var result := new u32[8];
      var resultLen := ConvertToPio(command, 1, result);
      assert command[..1] == [EepromReadCommand];
      Send(result[..resultLen], offset as nat);
      var i := 0;
      while i < resultLen
        invariant 0 <= i <= resultLen == 1
        invariant rx == old(rx)[i..]
        invariant buffer[..] == if i == 0 then old(buffer[..]) else old(buffer[..])[readIndex := old(rx)[0] % 0x100]
        invariant tx == old(tx) + Encode([EepromReadCommand]) && restarts == old(restarts) + [offset as nat]
        invariant programOffset == old(programOffset) && readCount == old(readCount)
        invariant eepromSize == old(eepromSize) && waitedMs == old(waitedMs)
      {
        var w := Get();
        buffer[i + readIndex] := w % 0x100;
        i := i + 1;
      }
    }

    /**
     * ReadEepromData: nothing when no EEPROM was found; otherwise 64 read
     * commands, each answered by one word whose low byte lands in buffer[i].
     */
    method ReadEepromData(offset: u32, buffer: array<u8>)
      requires buffer.Length >= 64
      requires eepromSize != 0 ==> |rx| >= 64
      modifies this, buffer
      ensures eepromSize == old(eepromSize) && waitedMs == old(waitedMs)
      ensures eepromSize == 0 ==> buffer[..] == old(buffer[..]) && rx == old(rx) && tx == old(tx) && restarts == old(restarts)
      ensures eepromSize != 0 ==> buffer[..64] == LowBytes(old(rx)[..64]) && buffer[64..] == old(buffer[64..])
      ensures eepromSize != 0 ==> rx == old(rx)[64..]
      ensures eepromSize != 0 ==> tx == old(tx) + Repeat(Encode([EepromReadCommand]), 64)
      ensures eepromSize != 0 ==> restarts == old(restarts) + Repeat([offset as nat], 64)
      ensures programOffset == old(programOffset) && readCount == old(readCount)
    {
      if eepromSize == 0 {
        return;
      }
      ReadBlocks(offset, buffer);
    }

    /** The loop of ReadEepromData: 64 read commands, block i's answer stored in buffer[i]. */
    method ReadBlocks(offset: u32, buffer: array<u8>)
      requires buffer.Length >= 64 && |rx| >= 64
      modifies this, buffer
      ensures buffer[..64] == LowBytes(old(rx)[..64]) && buffer[64..] == old(buffer[64..])
      ensures rx == old(rx)[64..]
      ensures tx == old(tx) + Repeat(Encode([EepromReadCommand]), 64)
      ensures restarts == old(restarts) + Repeat([offset as nat], 64)
      ensures programOffset == old(programOffset) && readCount == old(readCount)
      ensures eepromSize == old(eepromSize) && waitedMs == old(waitedMs)
    {
      ghost var rx0, buf0, tx0, restarts0 := rx, buffer[..], tx, restarts;
      var readIndex := 0;
      while readIndex < 64
        invariant 0 <= readIndex <= 64
        invariant rx == rx0[readIndex..]
        invariant buffer[..] == LowBytes(rx0[..readIndex]) + buf0[readIndex..]
        invariant tx == tx0 + Repeat(Encode([EepromReadCommand]), readIndex)
        invariant restarts == restarts0 + Repeat([offset as nat], readIndex)
        invariant programOffset == old(programOffset) && readCount == old(readCount)
        invariant eepromSize == old(eepromSize) && waitedMs == old(waitedMs)
      {
        ReadStep(offset, buffer, readIndex, rx0, buf0, tx0, restarts0);
        readIndex := readIndex + 1;
      }
      SplitAt(buffer[..], LowBytes(rx0[..64]), buf0[64..]);
    }

    /** One pass of the ReadBlocks loop, from the state after i blocks to the state after i + 1. */
    method ReadStep(offset: u32, buffer: array<u8>, i: nat, ghost rx0: seq<u32>, ghost buf0: seq<u8>, ghost tx0: seq<u32>, ghost restarts0: seq<nat>)
      requires i < 64 <= |rx0| && |buf0| == buffer.Length >= 64
      requires rx == rx0[i..] && buffer[..] == LowBytes(rx0[..i]) + buf0[i..]
      requires tx == tx0 + Repeat(Encode([EepromReadCommand]), i)
      requires restarts == restarts0 + Repeat([offset as nat], i)
      modifies this, buffer
      ensures rx == rx0[i + 1..] && buffer[..] == LowBytes(rx0[..i + 1]) + buf0[i + 1..]
      ensures tx == tx0 + Repeat(Encode([EepromReadCommand]), i + 1)
      ensures restarts == restarts0 + Repeat([offset as nat], i + 1)
      ensures programOffset == old(programOffset) && readCount == old(readCount)
      ensures eepromSize == old(eepromSize) && waitedMs == old(waitedMs)
    {
      assert rx[0] == rx0[i];
      ghost var before := buffer[..];
      ReadBlock(offset, buffer, i);
      LowBytesStep(rx0, buf0, i);
      assert buffer[..] == before[i := rx0[i] % 0x100];
    }

    /**
     * One iteration of WriteEepromData: the write command, then two answer
     * words; a nonzero second byte costs a 1 ms wait.  As written, the command
     * is encoded with length 1, so neither the block number nor the data
     * bytes go out.
     */
    method WriteBlock(offset: u32, buffer: seq<u8>, readIndex: nat)
      requires readIndex < 64 && |buffer| >= 71 && |rx| >= 2
      modifies this
      ensures rx == old(rx)[2..] && tx == old(tx) + Encode([EepromWriteCommand])
      ensures restarts == old(restarts) + [offset as nat]
      ensures waitedMs == old(waitedMs) + (if old(rx)[1] % 0x100 != 0 then 1 else 0)
      ensures programOffset == old(programOffset) && readCount == old(readCount) && eepromSize == old(eepromSize)
    {
      var command := [EepromWriteCommand, (readIndex + offset) % 0x100] + buffer[readIndex..readIndex + 8];
      var result := new u32[9];
      var resultLen := ConvertToPio(command, 1, result);
      assert command[..1] == [EepromWriteCommand];
      Send(result[..resultLen], offset as nat);
      var response0 := Get();
      var response1 := Get();
      if response1 % 0x100 != 0 {
        waitedMs := waitedMs + 1;
      }
    }

    /** WriteEepromData: 64 write commands, whatever the EEPROM size. */
    method WriteEepromData(offset: u32, buffer: seq<u8>)
      requires |buffer| >= 71
      requires |rx| >= 128
      modifies this
      ensures rx == old(rx)[128..]
      ensures tx == old(tx) + Repeat(Encode([EepromWriteCommand]), 64)
      ensures restarts == old(restarts) + Repeat([offset as nat], 64)
      ensures waitedMs == old(waitedMs) + WriteWaits(old(rx), 64)
      ensures programOffset == old(programOffset) && readCount == old(readCount) && eepromSize == old(eepromSize)
    {
      ghost var rx0, tx0, restarts0, waited0 := rx, tx, restarts, waitedMs;
      var readIndex := 0;
      while readIndex < 64
        invariant 0 <= readIndex <= 64
        invariant rx == rx0[2 * readIndex..]
        invariant tx == tx0 + Repeat(Encode([EepromWriteCommand]), readIndex)
        invariant restarts == restarts0 + Repeat([offset as nat], readIndex)
        invariant waitedMs == waited0 + WriteWaits(rx0, readIndex)
        invariant programOffset == old(programOffset) && readCount == old(readCount) && eepromSize == old(eepromSize)
      {
        assert rx[1] == rx0[2 * readIndex + 1] && rx[2..] == rx0[2 * (readIndex + 1)..];
        WriteBlock(offset, buffer, readIndex);
        readIndex := readIndex + 1;
      }
    }
  }
}
