/*
 * The cartridge's parallel address/data bus as the firmware drives it:
 * set_address latches a 32-bit bus address, after which every 16-bit read or
 * write strobe moves the cartridge's address on by one word.  The cartridge's
 * answers are a fixed map from byte address to 16-bit word; what the
 * firmware sends (addresses and written words) is kept as a trace.
 *
 * A FlashRAM chip in the save window has two ways of answering reads there:
 * its array (the stored save data), and its status register, which it
 * answers with after the identify command 0xE1000000 until the read-array
 * command 0xF0000000.  The port keeps that mode; a cartridge without FlashRAM
 * is one whose status answers are its ordinary answers.
 */
module CartBus {
  import opened Bytes
  import opened CartTypes

  const CartAddressStart: u32 := 0x1000_0000
  const SramAddressStart: u32 := 0x0800_0000
  /** The FlashRAM command register. */
  const FlashCommandAddress: u32 := 0x0801_0000
  /** The identify command: the chip answers with its status register until told otherwise. */
  const StatusCommand: u32 := 0xE100_0000
  /** The read-array command: the chip answers with its stored data again. */
  const ReadArrayCommand: u32 := 0xF000_0000

  /** What the firmware puts on the bus: an address latch or a 16-bit write. */
  datatype BusOp = Latch(address: u32) | Store(value: u16)

  /** The two writes of write32: the high half, then the low half, each cast to uint16_t. */
  function Write32Ops(value: nat): (ops: seq<BusOp>)
    ensures |ops| == 2 && ops[0].Store? && ops[1].Store?
  {
    [Store((value / 0x1_0000) % 0x1_0000), Store(value % 0x1_0000)]
  }

  /** For a 32-bit value the two halves written make up the value again. */
  lemma Write32Halves(value: nat)
    requires value < 0x1_0000_0000
    ensures Write32Ops(value)[0].value * 0x1_0000 + Write32Ops(value)[1].value == value
  {
  }

  /** The n words the cartridge returns to n consecutive read16 calls starting at byte address a. */
  function Words(bus: u32 -> u16, a: u32, n: nat): (ws: seq<u16>)
    ensures |ws| == n
    ensures forall k :: 0 <= k < n ==> ws[k] == bus(Wrap32(a + 2 * k))
  {
    seq(n, k requires 0 <= k < n => bus(Wrap32(a + 2 * k)))
  }

  /** The value of `(read16() << 16) | read16()` after set_address(a): the two halves, high first. */
  function Word32At(bus: u32 -> u16, a: u32): u32
  {
    0x1_0000 * bus(a) + bus(Wrap32(a + 2))
  }

  /** The high half of the value is the first word read, the low half the second. */
  lemma Word32Halves(bus: u32 -> u16, a: u32)
    ensures Word32At(bus, a) / 0x1_0000 == bus(a) && Word32At(bus, a) % 0x1_0000 == bus(Wrap32(a + 2))
  {
  }

  /** Whether a byte address lies in the save window (SRAM or FlashRAM), below the ROM. */
  predicate InSaveWindow(a: u32)
  {
    SramAddressStart <= a < CartAddressStart
  }

  /**
   * What the cartridge answers at each address: `bus`, except that in status
   * mode the save window answers with the chip's status register.
   */
  function Answers(bus: u32 -> u16, status: u32 -> u16, statusMode: bool): u32 -> u16
  {
    if statusMode then a => if InSaveWindow(a) then status(a) else bus(a) else bus
  }

  /** Outside the save window the chip's mode makes no difference. */
  lemma Word32OutsideWindow(bus: u32 -> u16, status: u32 -> u16, statusMode: bool, a: u32)
    requires CartAddressStart <= a < 0xFFFF_FFFE
    ensures Word32At(Answers(bus, status, statusMode), a) == Word32At(bus, a)
  {
    assert Wrap32(a + 2) == a + 2;
  }

  /** n words read from the ROM side of the bus do not depend on the chip's mode. */
  lemma WordsOutsideWindow(bus: u32 -> u16, status: u32 -> u16, statusMode: bool, a: u32, n: nat)
    requires CartAddressStart <= a && a + 2 * n <= 0x1_0000_0000
    ensures Words(Answers(bus, status, statusMode), a, n) == Words(bus, a, n)
  {
    forall k | 0 <= k < n
      ensures Answers(bus, status, statusMode)(Wrap32(a + 2 * k)) == bus(Wrap32(a + 2 * k))
    {
      assert Wrap32(a + 2 * k) == a + 2 * k;
    }
  }

  /** The mode a command written to the command register leaves the chip in. */
  function ModeAfter(statusMode: bool, command: u32): (m: bool)
    ensures command == StatusCommand ==> m
    ensures command == ReadArrayCommand ==> !m
    ensures command != StatusCommand && command != ReadArrayCommand ==> m == statusMode
  {
    if command == StatusCommand then true
    else if command == ReadArrayCommand then false
    else statusMode
  }

  /** The words written by a run of write16 calls. */
  function WriteOps(ws: seq<u16>): (ops: seq<BusOp>)
    ensures |ops| == |ws|
    ensures forall k :: 0 <= k < |ws| ==> ops[k] == Store(ws[k])
  {
    seq(|ws|, k requires 0 <= k < |ws| => Store(ws[k]))
  }

  /** Appending three pieces one after the other appends their concatenation. */
  lemma SeqAssoc3<T>(t: seq<T>, a: seq<T>, b: seq<T>, c: seq<T>)
    ensures t + a + b + c == t + (a + b + c)
  {
  }

  /** Appending four pieces one after the other appends their concatenation. */
  lemma SeqAssoc4<T>(t: seq<T>, a: seq<T>, b: seq<T>, c: seq<T>, d: seq<T>)
    ensures t + a + b + c + d == t + (a + b + c + d)
  {
  }

  /** `after` is `before` followed only by address latches within [lo, hi): nothing is written. */
  predicate AppendsLatchesWithin(before: seq<BusOp>, after: seq<BusOp>, lo: int, hi: int)
  {
    |before| <= |after| && after[..|before|] == before &&
    forall k :: |before| <= k < |after| ==> after[k].Latch? && lo <= after[k].address < hi
  }

  lemma AppendsLatchesTrans(a: seq<BusOp>, b: seq<BusOp>, c: seq<BusOp>, lo: int, hi: int)
    requires AppendsLatchesWithin(a, b, lo, hi) && AppendsLatchesWithin(b, c, lo, hi)
    ensures AppendsLatchesWithin(a, c, lo, hi)
  {
    assert c[..|a|] == c[..|b|][..|a|];
  }

  /** The bus port of the cartridge slot. */
  class BusPort {
    /** What the cartridge drives onto the data lines when a word at each byte address is read (array mode). */
    const bus: u32 -> u16
    /** What the FlashRAM's status register drives at each address of the save window. */
    const status: u32 -> u16
    /** Whether the chip answers with its status register: set by the identify command, cleared by read-array. */
    var statusMode: bool
    /** The address the cartridge will serve on the next read or write strobe. */
    var address: u32
    /** Everything the firmware has put on the bus so far. */
    var trace: seq<BusOp>

    /** What a read at each address returns in the chip's current mode. */
    function View(): u32 -> u16
      reads this
    {
      Answers(bus, status, statusMode)
    }

    /** A cartridge after power-up: the chip in array mode, nothing latched. */
    constructor(bus: u32 -> u16, status: u32 -> u16)
      ensures this.bus == bus && this.status == status && !statusMode && address == 0 && trace == []
    {
      this.bus := bus;
      this.status := status;
      statusMode := false;
      address := 0;
      trace := [];
    }

    /** set_address: latch a new bus address. */
    method SetAddress(a: u32)
      modifies this
      ensures address == a && trace == old(trace) + [Latch(a)] && statusMode == old(statusMode)
    {
      address := a;
      trace := trace + [Latch(a)];
    }

    /** read16: the word at the current address in the current mode; the cartridge moves on by two bytes. */
    method Read16() returns (w: u16)
      modifies this
      ensures w == View()(old(address))
      ensures address == Wrap32(old(address) + 2) && trace == old(trace) && statusMode == old(statusMode)
    {
      w := if statusMode && InSaveWindow(address) then status(address) else bus(address);
      address := Wrap32(address + 2);
    }

    /** write16: put one word on the bus at the current address. */
    method Write16(v: u16)
      modifies this
      ensures address == Wrap32(old(address) + 2) && trace == old(trace) + [Store(v)] && statusMode == old(statusMode)
    {
      trace := trace + [Store(v)];
      address := Wrap32(address + 2);
    }

    /** write32: the high half, then the low half; at the command register the chip takes it as a command. */
    method Write32(v: u32)
      modifies this
      ensures address == Wrap32(old(address) + 4) && trace == old(trace) + Write32Ops(v)
      ensures statusMode == if old(address) == FlashCommandAddress then ModeAfter(old(statusMode), v) else old(statusMode)
    {
      var command := address == FlashCommandAddress;
      Write16((v / 0x1_0000) % 0x1_0000);
      Write16(v % 0x1_0000);
      WrapAdd(old(address) + 2, 2);
      if command {
        statusMode := ModeAfter(statusMode, v);
      }
    }

    /** The firmware's recurring `(read16() << 16) | read16()`. */
    method Read32() returns (v: u32)
      modifies this
      ensures v == Word32At(View(), old(address))
      ensures address == Wrap32(old(address) + 4) && trace == old(trace) && statusMode == old(statusMode)
    {
      var hi := Read16();
      var lo := Read16();
      v := 0x1_0000 * (hi as int) + lo;
      WrapAdd(old(address) + 2, 2);
    }

    /** n consecutive read16 calls, each result passed through flip16 when flip is set. */
    method ReadWords(n: nat, flip: bool) returns (ws: seq<u16>)
      modifies this
      ensures !flip ==> ws == Words(View(), old(address), n)
      ensures flip ==> ws == FlipWords(Words(View(), old(address), n))
      ensures address == Wrap32(old(address) + 2 * n) && trace == old(trace) && statusMode == old(statusMode)
    {
      ws := [];
      var i := 0;
      while i < n
        invariant 0 <= i <= n
        invariant address == Wrap32(old(address) + 2 * i) && trace == old(trace) && statusMode == old(statusMode)
        invariant !flip ==> ws == Words(View(), old(address), i)
        invariant flip ==> ws == FlipWords(Words(View(), old(address), i))
      {
        var w := Read16();
        WrapAdd(old(address) + 2 * i, 2);
        if flip {
          w := Flip16(w);
        }
        ws := ws + [w];
        i := i + 1;
      }
    }
  }
}
