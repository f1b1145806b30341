/*
 * The cart tester report of CARTTEST.TXT: the text the read callback's
 * sprintf renders into the first block of the file.  Each conversion of the
 * format is a function here (%s, %lu, %04X, %02X, %c), with the property
 * that pins it down: the digits read back as the number, a C string stops
 * at its first NUL, and the rendered report fits in the sector.
 */
module VirtualDiskReport {
  import opened Bytes
  import opened CartTypes
  import opened VirtualDiskLayout

  /** The bytes of a string: one byte per character, its code. */
  function Text(s: string): (bs: seq<u8>)
    ensures |bs| == |s|
  {
    seq(|s|, i requires 0 <= i < |s| => (s[i] as int) % 0x100)
  }

  // ------------------------------------------------------------------ %lu

  function DigitByte(d: nat): u8
    requires d < 10
  {
    '0' as u8 + d
  }

  /** %lu: the decimal digits of n, most significant first, without leading zeros. */
  function DecimalText(n: nat): (bs: seq<u8>)
    ensures |bs| >= 1
    ensures forall i :: 0 <= i < |bs| ==> '0' as int <= bs[i] <= '9' as int
  {
    if n < 10 then [DigitByte(n)] else DecimalText(n / 10) + [DigitByte(n % 10)]
  }

  /** The number a run of decimal digits spells. */
  function DecimalValue(bs: seq<u8>): nat
    requires forall i :: 0 <= i < |bs| ==> '0' as int <= bs[i] <= '9' as int
  {
    if |bs| == 0 then 0 else 10 * DecimalValue(bs[..|bs| - 1]) + (bs[|bs| - 1] - '0' as int)
  }

  /** The digits printed read back as the number. */
  lemma {:induction false} DecimalRoundTrip(n: nat)
    ensures DecimalValue(DecimalText(n)) == n
  {
    var bs := DecimalText(n);
    if n >= 10 {
      DecimalRoundTrip(n / 10);
      assert bs[..|bs| - 1] == DecimalText(n / 10);
    }
  }

  /** No leading zero: the first digit is 0 only for the number 0 itself. */
  lemma {:induction false} DecimalNoLeadingZero(n: nat)
    ensures DecimalText(n)[0] == '0' as int <==> n == 0
  {
    if n >= 10 {
      DecimalNoLeadingZero(n / 10);
    }
  }

  function Pow10(k: nat): nat
  {
    if k == 0 then 1 else 10 * Pow10(k - 1)
  }

  /** A number below 10^k takes at most k digits. */
  lemma {:induction false} DecimalLength(n: nat, k: nat)
    requires 1 <= k && n < Pow10(k)
    ensures |DecimalText(n)| <= k
  {
    if n >= 10 {
      assert k >= 2;
      DecimalLength(n / 10, k - 1);
    }
  }

  // ---------------------------------------------------------- %04X and %02X

  function HexDigitByte(d: nat): u8
    requires d < 16
  {
    if d < 10 then '0' as u8 + d else 'A' as u8 + (d - 10)
  }

  /** The value of an upper-case hexadecimal digit. */
  function HexDigitValue(b: u8): nat
  {
    if '0' as int <= b <= '9' as int then b - '0' as int
    else if 'A' as int <= b <= 'F' as int then b - 'A' as int + 10
    else 0
  }

  /** %0wX: the w least significant hexadecimal digits of n, upper case, most significant first. */
  function HexText(n: nat, w: nat): (bs: seq<u8>)
    ensures |bs| == w
  {
    if w == 0 then [] else HexText(n / 16, w - 1) + [HexDigitByte(n % 16)]
  }

  /** The number a run of hexadecimal digits spells. */
  function HexValue(bs: seq<u8>): nat
  {
    if |bs| == 0 then 0 else 16 * HexValue(bs[..|bs| - 1]) + HexDigitValue(bs[|bs| - 1])
  }

  /** A value below 16^w prints in exactly w digits that read back as the value: %04X of a uint16_t, %02X of a byte. */
  lemma {:induction false} HexRoundTrip(n: nat, w: nat)
    requires n < Pow2(4 * w)
    ensures HexValue(HexText(n, w)) == n
  {
    if w > 0 {
      assert Pow2(4 * w) == 16 * Pow2(4 * (w - 1)) by {
        assert Pow2(4 * w) == 2 * Pow2(4 * w - 1) == 4 * Pow2(4 * w - 2) == 8 * Pow2(4 * w - 3);
      }
      HexRoundTrip(n / 16, w - 1);
      var bs := HexText(n, w);
      assert bs[..|bs| - 1] == HexText(n / 16, w - 1);
    }
  }

  // -------------------------------------------------------------------- %s

  /** A C string in memory: the bytes before the first NUL, or all of them when there is none. */
  function CString(bs: seq<u8>): (s: seq<u8>)
    ensures |s| <= |bs| && s == bs[..|s|]
    ensures forall i :: 0 <= i < |s| ==> s[i] != 0
    ensures |s| < |bs| ==> bs[|s|] == 0
  {
    if |bs| == 0 || bs[0] == 0 then [] else [bs[0]] + CString(bs[1..])
  }

  /** Word i of a word array, or zero past its end. */
  function CodeWord(ws: seq<u16>, i: nat): u16
  {
    if i < |ws| then ws[i] else 0
  }

  // ---------------------------------------------------------------- report

  /** The report line by line, as the format string lays it out. */
  function ReportLines(r: CartReport): (ls: seq<seq<u8>>)
    ensures |ls| == 11
  {
    var c0, c1, c2 := CodeWord(r.code, 0), CodeWord(r.code, 1), CodeWord(r.code, 2);
    [ Text("\nCart tester report:\n\n"),
      Text("    EEPROM     - ") + Text(r.eeprom) + Text("\n"),
      Text("    SRAM       - ") + Text(r.sram) + Text("\n"),
      Text("    FlashRam   - ") + Text(r.flashRam) + Text("\n"),
      Text("    CIC        - ") + Text(r.cic) + Text(" ") + Text(r.cicName) + Text("\n"),
      Text("    Romsize    - ") + DecimalText(r.romSizeMiB) + Text("MB\n"),
      Text("    RomName    - ") + CString(WordBytes(r.title)) + Text("\n"),
      Text("    RomID      - ") + HexText(c1, 4) + Text(" ") + [Hi(c1), Lo(c1)] + Text("\n"),
      Text("    CartType   - ") + [Lo(c0)] + Text("\n"),
      Text("    RomRegion  - ") + [Hi(c2)] + Text("\n"),
      Text("    RomVersion - ") + HexText(Lo(c2), 2) + Text("\n") ]
  }

  /** The characters sprintf writes, before its terminating NUL. */
  function ReportText(r: CartReport): seq<u8>
  {
    var ls := ReportLines(r);
    ls[0] + ls[1] + ls[2] + ls[3] + ls[4] + ls[5] + ls[6] + ls[7] + ls[8] + ls[9] + ls[10]
  }

  /**
   * The first 512 bytes of the buffer after memset and sprintf: the text,
   * then zeros (the terminating NUL among them).  A text of 512 bytes or
   * more would run past the sector; it is cut at the sector's end here.
   */
  function ReportBlock(r: CartReport): (bs: seq<u8>)
    ensures |bs| == SectorSize
  {
    TextBlock(ReportText(r))
  }

  /** A sector holding the text t followed by zeros, or the first 512 bytes of a longer text. */
  function TextBlock(t: seq<u8>): (bs: seq<u8>)
    ensures |bs| == SectorSize
  {
    if |t| < SectorSize then t + Zeros(SectorSize - |t|) else t[..SectorSize]
  }

  /** A report whose strings are as short as the firmware's (a CIC name of at most 16 characters, a ROM size under 10000 MiB) fits in one sector with its NUL. */
  lemma ReportFits(r: CartReport)
    requires |r.eeprom| <= 11 && |r.sram| <= 11 && |r.flashRam| <= 11 && |r.cic| <= 11
    requires |r.cicName| <= 16 && r.romSizeMiB < 10000 && |r.title| <= 0x16
    ensures |ReportText(r)| < SectorSize
  {
    DecimalLength(r.romSizeMiB, 4);
    assert |CString(WordBytes(r.title))| <= 44;
  }

  /** The report as the firmware fills it in: every string it selects is at most 11 characters. */
  lemma ReportStringsShort(eepromSize: u32, flag: u32, cicType: u32)
    ensures |EepromText(eepromSize)| <= 11 && |PresentText(flag)| <= 11 && |CicText(cicType)| <= 11
  {
  }

  /** When the report fits, the block is the text followed by zeros, so the C string read back from it is the text. */
  lemma ReportBlockText(r: CartReport)
    requires |ReportText(r)| < SectorSize
    requires forall i :: 0 <= i < |ReportText(r)| ==> ReportText(r)[i] != 0
    ensures CString(ReportBlock(r)) == ReportText(r)
  {
    var t := ReportText(r);
    var b := ReportBlock(r);
    assert b[..|t|] == t;
    CStringPrefix(b, |t|);
  }

  /** A buffer whose first n bytes are not NUL and whose byte n is reads as those n bytes. */
  lemma {:induction false} CStringPrefix(bs: seq<u8>, n: nat)
    requires n < |bs| && bs[n] == 0
    requires forall i :: 0 <= i < n ==> bs[i] != 0
    ensures CString(bs) == bs[..n]
  {
    if n > 0 {
      CStringPrefix(bs[1..], n - 1);
      assert bs[..n] == [bs[0]] + bs[1..][..n - 1];
    }
  }
}
