/**
 * Bytes, 16-bit words and hexadecimal digits as the C library sees them:
 * `unsigned char`, `uint16_t`, the digits `strtol(.., 16)` accepts and the
 * uppercase digits `printf("%X")` writes.
 */
module Bytes {
  type byte = x: int | 0 <= x < 256
  type u16 = x: int | 0 <= x < 0x1_0000

  /** BlueZ's HCI_MAX_EVENT_SIZE: the size of the command buffer and of `recvbuf`, and so the most one `read` can deliver. */
  const HCI_MAX_EVENT_SIZE: nat := 260

  function Lo(v: u16): byte { v % 256 }
  function Hi(v: u16): byte { v / 256 }

  /** `htons` on a little-endian host: the two bytes trade places. */
  function Swap16(v: u16): (r: u16)
    ensures Hi(r) == Lo(v) && Lo(r) == Hi(v)
  {
    Lo(v) * 256 + Hi(v)
  }

  predicate IsHexDigit(c: char) {
    ('0' <= c <= '9') || ('a' <= c <= 'f') || ('A' <= c <= 'F')
  }

  predicate IsHexString(s: string) {
    forall i :: 0 <= i < |s| ==> IsHexDigit(s[i])
  }

  /**
   * The value of one hexadecimal digit, either case. Callers only apply it to
   * hex digits; it is 0 elsewhere so that the decoders need no precondition.
   */
  function DigitValue(c: char): (v: nat)
    ensures v < 16
  {
    if '0' <= c <= '9' then c as int - '0' as int
    else if 'a' <= c <= 'f' then c as int - 'a' as int + 10
    else if 'A' <= c <= 'F' then c as int - 'A' as int + 10
    else 0
  }

  /** The digit `%X` prints for a value below 16: `0`-`9` or uppercase `A`-`F`. */
  function HexChar(d: nat): (c: char)
    requires d < 16
    ensures IsHexDigit(c) && DigitValue(c) == d
    ensures !('a' <= c <= 'f')
  {
    if d < 10 then ('0' as int + d) as char else ('A' as int + d - 10) as char
  }

  /** The two uppercase digits `%02X` writes for `b`, high half first. */
  function Digits(b: byte): (s: string)
    ensures |s| == 2 && 16 * DigitValue(s[0]) + DigitValue(s[1]) == b
  {
    [HexChar(b / 16), HexChar(b % 16)]
  }

  /** `%04X` of a 16-bit value: four uppercase digits, most significant first. */
  function Hex4(v: u16): (s: string)
    ensures |s| == 4 && IsHexString(s)
    ensures 16 * DigitValue(s[0]) + DigitValue(s[1]) == Hi(v)
    ensures 16 * DigitValue(s[2]) + DigitValue(s[3]) == Lo(v)
  {
    NibblesOf(v);
    [HexChar(v / 4096), HexChar(v / 256 % 16), HexChar(v / 16 % 16), HexChar(v % 16)]
  }

  lemma NibblesOf(v: u16)
    ensures v / 4096 < 16
    ensures 16 * (v / 4096) + v / 256 % 16 == Hi(v)
    ensures 16 * (v / 16 % 16) + v % 16 == Lo(v)
  {
    var h, l := v / 256, v % 256;
    assert v == 256 * h + l;
    assert v / 4096 == h / 16;
    assert v / 16 % 16 == l / 16;
    assert v % 16 == l % 16;
  }
}
