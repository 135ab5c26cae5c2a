/**
 * The text-to-bytes step of `ctrl_command` (bletool.c:61-72): every pair of
 * hexadecimal digits becomes one command parameter byte, and a dangling odd
 * digit at the end is ignored.
 */
module Hex {
  import opened Bytes

  /** The byte a two-digit window denotes: what `strtol(tmp, NULL, 16)` yields. */
  function PairValue(hi: char, lo: char): byte {
    16 * DigitValue(hi) + DigitValue(lo)
  }

  /** Bytes of a hex string, two digits each, left to right; a dangling digit is ignored. */
  function DecodeHex(s: string): (r: seq<byte>) {
    seq(|s| / 2, i requires 0 <= i < |s| / 2 => PairValue(s[2 * i], s[2 * i + 1]))
  }

  /** Two uppercase digits per byte, as `%02X` prints them. */
  function EncodeHex(b: seq<byte>): (s: string)
    ensures |s| == 2 * |b| && IsHexString(s)
  {
    if b == [] then [] else Digits(b[0]) + EncodeHex(b[1..])
  }

  /** Decoding undoes encoding: every byte sequence comes back from its hex text. */
  lemma {:induction false} DecodeEncode(b: seq<byte>)
    ensures DecodeHex(EncodeHex(b)) == b
  {
    if b != [] {
      var s := EncodeHex(b);
      assert s == Digits(b[0]) + EncodeHex(b[1..]);
      DecodeEncode(b[1..]);
      var r := DecodeHex(s);
      assert r[0] == b[0];
      forall i | 1 <= i < |r| ensures r[i] == b[i] {
        assert r[i] == DecodeHex(EncodeHex(b[1..]))[i - 1];
      }
    }
  }

  /** An odd trailing digit contributes nothing. */
  lemma DropsOddNibble(s: string)
    requires |s| % 2 == 1
    ensures DecodeHex(s) == DecodeHex(s[..|s| - 1])
  {
    var a, b := DecodeHex(s), DecodeHex(s[..|s| - 1]);
    assert |a| == |b|;
    forall i | 0 <= i < |a| ensures a[i] == b[i] {
    }
  }

  /** Decoding distributes over concatenation at an even boundary. */
  lemma DecodeAppend(a: string, b: string)
    requires |a| % 2 == 0
    ensures DecodeHex(a + b) == DecodeHex(a) + DecodeHex(b)
  {
    var l, r := DecodeHex(a + b), DecodeHex(a) + DecodeHex(b);
    assert |l| == |r|;
    forall i | 0 <= i < |l| ensures l[i] == r[i] {
      if i >= |a| / 2 {
        var j := i - |a| / 2;
        assert (a + b)[2 * i] == b[2 * j] && (a + b)[2 * i + 1] == b[2 * j + 1];
      }
    }
  }

  /** `%04X` text of a swapped word decodes to its low byte, then its high byte. */
  lemma DecodeSwappedWord(v: u16)
    ensures DecodeHex(Hex4(Swap16(v))) == [Lo(v), Hi(v)]
  {
    var p := DecodeHex(Hex4(Swap16(v)));
    assert p[0] == Lo(v);
    assert p[1] == Hi(v);
  }

  lemma DecodeAppend3(a: string, b: string, c: string)
    requires |a| % 2 == 0 && |b| % 2 == 0
    ensures DecodeHex(a + b + c) == DecodeHex(a) + DecodeHex(b) + DecodeHex(c)
  {
    DecodeAppend(a, b);
    DecodeAppend(a + b, c);
  }

  /**
   * The loop of `ctrl_command`: `len = strlen(data) / 2` pairs are decoded
   * through `*ptr++` into the fixed buffer, and the first `len` bytes are sent.
   */
  method HexToBytes(data: string) returns (payload: seq<byte>)
    requires IsHexString(data)
    requires |data| / 2 <= HCI_MAX_EVENT_SIZE
    ensures payload == DecodeHex(data)
    ensures |payload| == |data| / 2
    ensures forall i :: 0 <= i < |payload| ==> payload[i] == 16 * DigitValue(data[2 * i]) + DigitValue(data[2 * i + 1])
  {
    var buf := new byte[HCI_MAX_EVENT_SIZE];
    var len := |data| / 2;
    var ptr := 0;
    for i := 0 to len
      invariant ptr == i
      invariant forall k :: 0 <= k < i ==> buf[k] == PairValue(data[2 * k], data[2 * k + 1])
    {
      buf[ptr] := PairValue(data[2 * i], data[2 * i + 1]);
      ptr := ptr + 1;
    }
    payload := buf[..len];
  }
}
