/**
 * The fixed HCI commands the tool sends (Bluetooth Core Specification,
 * Vol 4, Part E, section 7.8: LE Controller commands), each given as the
 * hexadecimal text the C code hands to `ctrl_command` and as the decoded
 * (OGF, OCF, parameters) triple.
 */
module Hci {
  import opened Bytes
  import opened Hex
  import opened Wrappers

  /** An HCI command: opcode group, opcode command and parameter bytes. */
  datatype Command = Command(ogf: byte, ocf: u16, payload: seq<byte>)

  const OGF_LE_CTL: byte := 0x08
  const OCF_LE_SET_ADVERTISING_PARAMETERS: u16 := 0x0006
  const OCF_LE_SET_ADVERTISING_DATA: u16 := 0x0008
  const OCF_LE_SET_ADVERTISE_ENABLE: u16 := 0x000A

  /**
   * The packet `ctrl_command(ogf, ocf, data)` hands to `hci_send_cmd`. That
   * call takes the parameter length as one byte, so of the decoded bytes only
   * the first `len mod 256` go out; every text shorter than 512 digits is
   * sent whole.
   */
  function TextCommand(ogf: byte, ocf: u16, data: string): (c: Command)
    requires IsHexString(data)
    ensures c.ogf == ogf && c.ocf == ocf
    ensures |c.payload| == (|data| / 2) % 256 && c.payload == DecodeHex(data)[..|c.payload|]
    ensures |data| / 2 < 256 ==> c.payload == DecodeHex(data)
  {
    var p := DecodeHex(data);
    Command(ogf, ocf, p[..|p| % 256])
  }

  /** Every byte sequence of at most 255 bytes goes out unchanged when given as its hex text. */
  lemma SendEncoded(ogf: byte, ocf: u16, b: seq<byte>)
    requires |b| <= 255
    ensures TextCommand(ogf, ocf, EncodeHex(b)) == Command(ogf, ocf, b)
  {
    DecodeEncode(b);
  }

  // ---- configure (bletool.c:92-97) ----

  /** The fixed tail of the advertising-parameters text: nine zero bytes, then 07 00. */
  const CONFIGURE_TAIL: string := "0000000000000000000700"
  const CONFIGURE_TAIL_BYTES: seq<byte> := [0, 0, 0, 0, 0, 0, 0, 0, 0, 0x07, 0x00]

  /** The parameters text: both swapped intervals as four uppercase digits each, then the fixed tail. */
  function ConfigureText(minInterval: u16, maxInterval: u16): (s: string)
    ensures IsHexString(s) && |s| == 30
  {
    TailIsHex();
    Hex4(Swap16(minInterval)) + Hex4(Swap16(maxInterval)) + CONFIGURE_TAIL
  }

  /**
   * LE Set Advertising Parameters (section 7.8.5): both intervals little-endian,
   * advertising type 0 (connectable undirected), own and peer address type 0,
   * a zero peer address, channel map 0x07 (all three channels), filter policy 0.
   */
  function ConfigureCommand(minInterval: u16, maxInterval: u16): (c: Command)
    ensures c.ogf == OGF_LE_CTL && c.ocf == OCF_LE_SET_ADVERTISING_PARAMETERS
    ensures c.payload == [Lo(minInterval), Hi(minInterval), Lo(maxInterval), Hi(maxInterval)] + CONFIGURE_TAIL_BYTES
  {
    ConfigurePayload(minInterval, maxInterval);
    TextCommand(OGF_LE_CTL, OCF_LE_SET_ADVERTISING_PARAMETERS, ConfigureText(minInterval, maxInterval))
  }

  lemma ConfigurePayload(minInterval: u16, maxInterval: u16)
    ensures DecodeHex(ConfigureText(minInterval, maxInterval)) ==
      [Lo(minInterval), Hi(minInterval), Lo(maxInterval), Hi(maxInterval)] + CONFIGURE_TAIL_BYTES
  {
    DecodeSwappedWord(minInterval);
    DecodeSwappedWord(maxInterval);
    TailBytes();
    DecodeAppend3(Hex4(Swap16(minInterval)), Hex4(Swap16(maxInterval)), CONFIGURE_TAIL);
  }

  lemma TailIsHex()
    ensures IsHexString(CONFIGURE_TAIL)
  {
  }

  lemma TailBytes()
    ensures DecodeHex(CONFIGURE_TAIL) == CONFIGURE_TAIL_BYTES
  {
    var p := DecodeHex(CONFIGURE_TAIL);
    ZeroPairs(CONFIGURE_TAIL[..18]);
    assert CONFIGURE_TAIL == CONFIGURE_TAIL[..18] + "0700";
    DecodeAppend(CONFIGURE_TAIL[..18], "0700");
    assert DecodeHex("0700") == [0x07, 0x00];
  }

  /** A run of '0' digits decodes to zero bytes. */
  lemma ZeroPairs(s: string)
    requires forall i :: 0 <= i < |s| ==> s[i] == '0'
    ensures DecodeHex(s) == seq(|s| / 2, _ => 0)
  {
  }

  /** The command `configure(32, 64)` sends: 20 00 40 00, nine zeros, 07 00. */
  lemma ConfigureDefault()
    ensures ConfigureCommand(32, 64).payload ==
      [0x20, 0x00, 0x40, 0x00, 0, 0, 0, 0, 0, 0, 0, 0, 0, 0x07, 0x00]
  {
    assert [Lo(32), Hi(32), Lo(64), Hi(64)] == [0x20, 0x00, 0x40, 0x00];
    DefaultBytes();
  }

  lemma DefaultBytes()
    ensures [0x20, 0x00, 0x40, 0x00] + CONFIGURE_TAIL_BYTES == [0x20, 0x00, 0x40, 0x00, 0, 0, 0, 0, 0, 0, 0, 0, 0, 0x07, 0x00]
  {
  }

  // ---- advertise_on / advertise_off (bletool.c:99-107) ----

  /** The text `advertise_on` ("01") or `advertise_off` ("00") passes. */
  function EnableText(on: bool): (s: string)
    ensures IsHexString(s) && |s| == 2
  {
    if on then "01" else "00"
  }

  /** LE Set Advertising Enable (section 7.8.9): one byte, 1 to start advertising, 0 to stop. */
  function AdvertiseEnableCommand(on: bool): (c: Command)
    ensures c == Command(OGF_LE_CTL, OCF_LE_SET_ADVERTISE_ENABLE, [if on then 0x01 else 0x00])
  {
    TextCommand(OGF_LE_CTL, OCF_LE_SET_ADVERTISE_ENABLE, EnableText(on))
  }

  // ---- set_advertisement_data (bletool.c:19, 109-118) ----

  /**
   * DEFAULT_ADV_HEADER: the length byte 0x1F, then the AD structures
   * Flags (02 01 06), Complete List of 16-bit Service UUIDs (03 03 AAFE) and the
   * head of Service Data for UUID 0xFEAA (17 16 AAFE 80).
   */
  const ADV_HEADER: string := "1F0201060303AAFE1716AAFE80"
  const ADV_HEADER_BYTES: seq<byte> := [0x1F, 0x02, 0x01, 0x06, 0x03, 0x03, 0xAA, 0xFE, 0x17, 0x16, 0xAA, 0xFE, 0x80]

  /** Size of the `alldata` text buffer. */
  const ADV_TEXT_SIZE: nat := 64

  /** Longest caller text for which `sprintf` still fits header, text and NUL into `alldata`. */
  const MAX_ADV_HEX: nat := 37

  function Zeros(n: nat): (s: string)
    ensures |s| == n && forall i :: 0 <= i < n ==> s[i] == '0'
  {
    seq(n, _ => '0')
  }

  /** The 64 digits `alldata` holds after the padding loop. */
  function AdvText(d: string): (s: string)
    requires |d| <= MAX_ADV_HEX
    ensures |s| == ADV_TEXT_SIZE && (IsHexString(d) ==> IsHexString(s))
  {
    HeaderIsHex();
    ADV_HEADER + d + Zeros(ADV_TEXT_SIZE - |ADV_HEADER| - |d|)
  }

  /**
   * The header and the caller text formatted into `alldata`, then the loop
   * that overwrites everything from the terminating NUL to the end with '0'.
   */
  method BuildAdvText(d: string) returns (alldata: string)
    requires IsHexString(d) && |d| <= MAX_ADV_HEX
    ensures alldata == AdvText(d)
  {
    var buf := new char[ADV_TEXT_SIZE];
    var text := ADV_HEADER + d;
    forall k | 0 <= k < |text| {
      buf[k] := text[k];
    }
    buf[|text|] := 0 as char;
    var i := |text|;
    while i < ADV_TEXT_SIZE
      invariant |text| <= i <= ADV_TEXT_SIZE
      invariant buf[..|text|] == text
      invariant forall k :: |text| <= k < i ==> buf[k] == '0'
    {
      buf[i] := '0';
      i := i + 1;
    }
    alldata := buf[..];
    assert alldata == AdvText(d);
  }

  /** LE Set Advertising Data (section 7.8.7) for caller text `d`. */
  function AdvDataCommand(d: string): (c: Command)
    requires IsHexString(d) && |d| <= MAX_ADV_HEX
    ensures c.ogf == OGF_LE_CTL && c.ocf == OCF_LE_SET_ADVERTISING_DATA
    ensures c.payload == DecodeHex(AdvText(d)) && |c.payload| == 32
  {
    TextCommand(OGF_LE_CTL, OCF_LE_SET_ADVERTISING_DATA, AdvText(d))
  }

  /**
   * The frame: the length byte 0x1F and the twelve fixed AD bytes, then the
   * caller's bytes, an odd last digit as the high half of one more byte whose
   * low half is a padding '0', and zeros up to 32 bytes in all.
   */
  lemma AdvDataFrame(d: string)
    requires IsHexString(d) && |d| <= MAX_ADV_HEX
    ensures var p := AdvDataCommand(d).payload;
      && |p| == 32
      && p[..13] == ADV_HEADER_BYTES
      && p[13..13 + |d| / 2] == DecodeHex(d)
      && (|d| % 2 == 1 ==> p[13 + |d| / 2] == 16 * DigitValue(d[|d| - 1]))
      && (forall k :: 13 + (|d| + 1) / 2 <= k < 32 ==> p[k] == 0)
  {
    HeaderSize();
    var z := Zeros(ADV_TEXT_SIZE - |ADV_HEADER| - |d|);
    assert AdvText(d) == ADV_HEADER + d + z;
    PaddedLayout(ADV_HEADER, d, z);
    HeaderBytes();
    assert |z| > 0 && |DecodeHex(ADV_HEADER + d + z)| == 32;
  }

  /** Decoding a header, a caller text and a run of '0' digits. */
  lemma PaddedLayout(h: string, d: string, z: string)
    requires |h| % 2 == 0
    requires forall i :: 0 <= i < |z| ==> z[i] == '0'
    ensures var p, m := DecodeHex(h + d + z), |h| / 2;
      && p[..m] == DecodeHex(h)
      && p[m..m + |d| / 2] == DecodeHex(d)
      && (|d| % 2 == 1 && |z| > 0 ==> p[m + |d| / 2] == 16 * DigitValue(d[|d| - 1]))
      && (forall k :: m + (|d| + 1) / 2 <= k < |p| ==> p[k] == 0)
  {
    PaddedHead(h, d, z);
    PaddedText(h, d, z);
    if |d| % 2 == 1 && |z| > 0 {
      PaddedOddDigit(h, d, z);
    }
    PaddedZeros(h, d, z);
  }

  lemma PaddedHead(h: string, d: string, z: string)
    requires |h| % 2 == 0
    ensures DecodeHex(h + d + z)[..|h| / 2] == DecodeHex(h)
  {
    var t, p := h + d + z, DecodeHex(h + d + z);
    forall k | 0 <= k < |h| / 2 ensures p[k] == DecodeHex(h)[k] {
      assert t[2 * k] == h[2 * k] && t[2 * k + 1] == h[2 * k + 1];
    }
  }

  lemma PaddedText(h: string, d: string, z: string)
    requires |h| % 2 == 0
    ensures var m := |h| / 2; DecodeHex(h + d + z)[m..m + |d| / 2] == DecodeHex(d)
  {
    var t, p, m := h + d + z, DecodeHex(h + d + z), |h| / 2;
    forall k | 0 <= k < |d| / 2 ensures p[m + k] == DecodeHex(d)[k] {
      assert t[2 * (m + k)] == d[2 * k] && t[2 * (m + k) + 1] == d[2 * k + 1];
    }
  }

  lemma PaddedOddDigit(h: string, d: string, z: string)
    requires |h| % 2 == 0 && |d| % 2 == 1 && |z| > 0 && z[0] == '0'
    ensures DecodeHex(h + d + z)[|h| / 2 + |d| / 2] == 16 * DigitValue(d[|d| - 1])
  {
    var t, k := h + d + z, |h| / 2 + |d| / 2;
    assert t[2 * k] == d[|d| - 1] && t[2 * k + 1] == z[0];
  }

  lemma PaddedZeros(h: string, d: string, z: string)
    requires |h| % 2 == 0
    requires forall i :: 0 <= i < |z| ==> z[i] == '0'
    ensures var p := DecodeHex(h + d + z);
      forall k :: |h| / 2 + (|d| + 1) / 2 <= k < |p| ==> p[k] == 0
  {
    var t, p, m := h + d + z, DecodeHex(h + d + z), |h| / 2;
    forall k | m + (|d| + 1) / 2 <= k < |p| ensures p[k] == 0 {
      assert t[2 * k] == z[2 * k - |h| - |d|] && t[2 * k + 1] == z[2 * k + 1 - |h| - |d|];
    }
  }

  /**
   * Splits advertising data into AD structures (Vol 3, Part C, section 11):
   * each is a length byte followed by that many bytes; a zero length ends the
   * significant part; a length that runs past the end is malformed.
   */
  function AdStructures(s: seq<byte>): Option<seq<seq<byte>>>
    decreases |s|
  {
    if s == [] || s[0] == 0 then Some([])
    else if |s| < s[0] as int + 1 then None
    else
      match AdStructures(s[s[0] as int + 1..])
      case None => None
      case Some(rest) => Some([s[1..s[0] as int + 1]] + rest)
  }

  /** Bytes the structures take when written out, length bytes included. */
  function EncodedSize(structures: seq<seq<byte>>): nat {
    if structures == [] then 0 else 1 + |structures[0]| + EncodedSize(structures[1..])
  }

  /**
   * The lengths 02, 03 and 0x17 chain into exactly three AD structures (Flags,
   * Complete List of 16-bit Service UUIDs, Service Data) that fill the 31 bytes
   * announced by the first byte; the caller's bytes and padding sit in the third.
   */
  lemma AdChain(d: string)
    requires IsHexString(d) && |d| <= MAX_ADV_HEX
    ensures var p := AdvDataCommand(d).payload;
      && |p| == 32
      && AdStructures(p[1..]) == Some([[0x01, 0x06], [0x03, 0xAA, 0xFE], [0x16, 0xAA, 0xFE, 0x80] + p[13..]])
      && EncodedSize([[0x01, 0x06], [0x03, 0xAA, 0xFE], [0x16, 0xAA, 0xFE, 0x80] + p[13..]]) == p[0] == |p| - 1
  {
    AdvDataFrame(d);
    var p := AdvDataCommand(d).payload;
    HeaderChain(p);
    ChainSize(p[13..]);
    assert p[0] == ADV_HEADER_BYTES[0];
  }

  /** The chain of AD structures over any 32 bytes that start with the fixed header. */
  lemma HeaderChain(p: seq<byte>)
    requires |p| == 32 && p[..13] == ADV_HEADER_BYTES
    ensures AdStructures(p[1..]) == Some([[0x01, 0x06], [0x03, 0xAA, 0xFE], [0x16, 0xAA, 0xFE, 0x80] + p[13..]])
  {
    var service := [0x16, 0xAA, 0xFE, 0x80] + p[13..];
    var h := ADV_HEADER_BYTES;
    assert p[1] == h[1] == 0x02 && p[2] == h[2] == 0x01 && p[3] == h[3] == 0x06;
    assert p[4] == h[4] == 0x03 && p[5] == h[5] == 0x03 && p[6] == h[6] == 0xAA && p[7] == h[7] == 0xFE;
    assert p[8] == h[8] == 0x17;
    assert p[9..] == service by {
      assert p[9..13] == h[9..] == [0x16, 0xAA, 0xFE, 0x80];
    }
    var s2 := p[8..];
    assert s2[0] == 0x17 && s2[1..24] == service;
    assert AdStructures(s2[24..]) == Some([]);
    AdCons(s2, []);
    assert [service] + [] == [service];
    var s1 := p[4..];
    assert s1[1..4] == [0x03, 0xAA, 0xFE] && s1[4..] == s2;
    AdCons(s1, [service]);
    assert [s1[1..4]] + [service] == [[0x03, 0xAA, 0xFE], service];
    var s0 := p[1..];
    assert s0[1..3] == [0x01, 0x06] && s0[3..] == s1;
    AdCons(s0, [[0x03, 0xAA, 0xFE], service]);
    assert [s0[1..3]] + [[0x03, 0xAA, 0xFE], service] == [[0x01, 0x06], [0x03, 0xAA, 0xFE], service];
  }

  lemma AdCons(s: seq<byte>, rest: seq<seq<byte>>)
    requires s != [] && s[0] != 0 && s[0] as int + 1 <= |s|
    requires AdStructures(s[s[0] as int + 1..]) == Some(rest)
    ensures AdStructures(s) == Some([s[1..s[0] as int + 1]] + rest)
  {
  }

  /** The three structures of the frame take 31 bytes when written out. */
  lemma ChainSize(tail: seq<byte>)
    requires |tail| == 19
    ensures EncodedSize([[0x01, 0x06], [0x03, 0xAA, 0xFE], [0x16, 0xAA, 0xFE, 0x80] + tail]) == 31
  {
    var l: seq<seq<byte>> := [[0x01, 0x06], [0x03, 0xAA, 0xFE], [0x16, 0xAA, 0xFE, 0x80] + tail];
    assert EncodedSize(l[2..]) == 24 by {
      assert |l[2..][1..]| == 0;
    }
    assert l[1..][1..] == l[2..];
  }

  lemma HeaderSize()
    ensures |ADV_HEADER| == 26 && |ADV_HEADER_BYTES| == 13
  {
  }

  lemma HeaderIsHex()
    ensures IsHexString(ADV_HEADER)
  {
  }

  /** DEFAULT_ADV_HEADER decodes to the thirteen bytes listed in ADV_HEADER_BYTES. */
  lemma HeaderBytes()
    ensures DecodeHex(ADV_HEADER) == ADV_HEADER_BYTES
  {
    HeaderPieces();
    DecodeAppend3("1F020106", "0303AAFE", "1716AAFE80");
    HeaderFlags();
    HeaderUuids();
    HeaderServiceData();
  }

  /** The header text and bytes, cut at the AD structures. */
  lemma HeaderPieces()
    ensures ADV_HEADER == "1F020106" + "0303AAFE" + "1716AAFE80"
    ensures ADV_HEADER_BYTES == [0x1F, 0x02, 0x01, 0x06] + [0x03, 0x03, 0xAA, 0xFE] + [0x17, 0x16, 0xAA, 0xFE, 0x80]
  {
  }

  /** The length byte and the Flags structure: 1F 02 01 06. */
  lemma HeaderFlags()
    ensures DecodeHex("1F020106") == [0x1F, 0x02, 0x01, 0x06]
  {
  }

  /** The 16-bit Service UUIDs structure: 03 03 AA FE. */
  lemma HeaderUuids()
    ensures DecodeHex("0303AAFE") == [0x03, 0x03, 0xAA, 0xFE]
  {
  }

  /** The head of the Service Data structure: 17 16 AA FE 80. */
  lemma HeaderServiceData()
    ensures DecodeHex("1716AAFE80") == [0x17, 0x16, 0xAA, 0xFE, 0x80]
  {
  }
}
