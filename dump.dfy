/**
 * `hex_dump(pref, width, buf, len)` (bletool.c:30-45): the bytes of `buf`
 * as uppercase two-digit hex, each followed by a space, `width` bytes to a
 * line, every line opened by `pref` and closed by one newline.
 *
 * The layout is stated over the texts of the bytes (`Texts`), so that the
 * reasoning about lines does not depend on how one byte is spelled.
 */
module HexDump {
  import opened Bytes

  /** `printf("%2.2X ", b)`. */
  function ByteText(b: byte): string {
    Digits(b) + " "
  }

  /** Each byte is two uppercase hex digits that read back as the byte, then a space. */
  lemma ByteTextDigits(b: byte)
    ensures var t := ByteText(b);
      |t| == 3 && t[2] == ' ' &&
      IsHexDigit(t[0]) && IsHexDigit(t[1]) && !('a' <= t[0] <= 'f') && !('a' <= t[1] <= 'f') &&
      16 * DigitValue(t[0]) + DigitValue(t[1]) == b
  {
  }

  /** The text of every byte of `buf`, in order. */
  function Texts(buf: seq<byte>): (ts: seq<string>)
    ensures |ts| == |buf|
  {
    seq(|buf|, j requires 0 <= j < |buf| => ByteText(buf[j]))
  }

  lemma TextsAt(buf: seq<byte>, i: nat)
    requires i < |buf|
    ensures Texts(buf)[i] == ByteText(buf[i])
  {
  }

  // ---- The intended layout ----

  /** The texts `ts[lo..hi]` one after the other. */
  function Text(ts: seq<string>, lo: nat, hi: nat): string
    requires lo <= hi <= |ts|
    decreases hi - lo
  {
    if lo == hi then "" else Text(ts, lo, hi - 1) + ts[hi - 1]
  }

  /** One output line holding `ts[lo..hi]`. */
  function Line(pref: string, ts: seq<string>, lo: nat, hi: nat): string
    requires lo <= hi <= |ts|
  {
    pref + Text(ts, lo, hi) + "\n"
  }

  /** `len` items fill whole lines of `width` items. */
  predicate WholeLines(width: int, len: nat)
    requires width >= 1
  {
    len == 0 || (len >= width && WholeLines(width, len - width))
  }

  /** The full lines of `width` items among the first `s` items; none when `width < 1`. */
  function Lines(pref: string, width: int, ts: seq<string>, s: nat): string
    requires s <= |ts|
  {
    if width < 1 || s < width then "" else Lines(pref, width, ts, s - width) + Line(pref, ts, s - width, s)
  }

  /** How many of `len` items fill whole lines. */
  function Whole(width: int, len: nat): (s: nat)
    requires width >= 1
    ensures s <= len && len - s < width && WholeLines(width, s)
  {
    if len < width then 0 else Whole(width, len - width) + width
  }

  /**
   * The full lines of `width` items, then the items left over on one last
   * line if there are any; everything on one line when `width < 1`.
   */
  function Layout(pref: string, width: int, ts: seq<string>): string {
    var s := if width < 1 then 0 else Whole(width, |ts|);
    Lines(pref, width, ts, s) + if s == |ts| then "" else Line(pref, ts, s, |ts|)
  }

  /** What `hex_dump` is meant to print. */
  function Dump(pref: string, width: int, buf: seq<byte>): string {
    Layout(pref, width, Texts(buf))
  }

  // ---- Its length ----

  /** How many lines the dump has: one per started block of `width` bytes. */
  function LineCount(width: int, len: nat): nat {
    if len == 0 then 0 else if width < 1 || len <= width then 1 else 1 + LineCount(width, len - width)
  }

  predicate AllThree(ts: seq<string>) {
    forall j :: 0 <= j < |ts| ==> |ts[j]| == 3
  }

  lemma TextsThree(buf: seq<byte>)
    ensures AllThree(Texts(buf))
  {
    forall j | 0 <= j < |buf|
      ensures |Texts(buf)[j]| == 3
    {
      TextsAt(buf, j);
    }
  }

  lemma {:induction false} TextLength(ts: seq<string>, lo: nat, hi: nat)
    requires lo <= hi <= |ts| && AllThree(ts)
    ensures |Text(ts, lo, hi)| == 3 * (hi - lo)
    decreases hi - lo
  {
    if lo < hi {
      TextLength(ts, lo, hi - 1);
    }
  }

  lemma MulStep(c: nat, m: nat)
    ensures (c + 1) * m == c * m + m
  {
  }

  lemma {:induction false} LinesLength(pref: string, width: int, ts: seq<string>, s: nat)
    requires width >= 1 && s <= |ts| && WholeLines(width, s) && AllThree(ts)
    ensures |Lines(pref, width, ts, s)| == 3 * s + LineCount(width, s) * (|pref| + 1)
    decreases s
  {
    if s > 0 {
      LinesLength(pref, width, ts, s - width);
      TextLength(ts, s - width, s);
      var c, m := LineCount(width, s - width), |pref| + 1;
      assert |Line(pref, ts, s - width, s)| == 3 * width + m;
      assert |Lines(pref, width, ts, s)| == |Lines(pref, width, ts, s - width)| + 3 * width + m;
      assert LineCount(width, s) == c + 1 by {
        if s - width > 0 {
          assert s > width;
        }
      }
      MulStep(c, m);
    }
  }

  lemma {:induction false} LineCountWhole(width: int, len: nat)
    requires width >= 1
    ensures var s := Whole(width, len);
      LineCount(width, len) == LineCount(width, s) + if s == len then 0 else 1
  {
    if len >= width {
      LineCountWhole(width, len - width);
      var s := Whole(width, len - width);
      assert LineCount(width, s + width) == LineCount(width, s) + 1 by {
        if s > 0 {
          assert s + width > width;
        }
      }
    }
  }

  /** Nothing is written for an empty buffer; otherwise three characters per byte and a prefix and a newline per line. */
  lemma DumpLength(pref: string, width: int, buf: seq<byte>)
    ensures Dump(pref, width, buf) == "" <==> |buf| == 0
    ensures |Dump(pref, width, buf)| == 3 * |buf| + LineCount(width, |buf|) * (|pref| + 1)
  {
    var ts, k := Texts(buf), |buf|;
    TextsThree(buf);
    var s := if width < 1 then 0 else Whole(width, k);
    if width >= 1 {
      LinesLength(pref, width, ts, s);
      LineCountWhole(width, k);
    }
    if s < k {
      TextLength(ts, s, k);
      MulStep(if width < 1 then 0 else LineCount(width, s), |pref| + 1);
    }
    if k > 0 {
      assert LineCount(width, k) > 0;
    }
  }

  // ---- The loop of hex_dump, and why it prints the layout ----

  /** The value of `hex_dump`'s line counter `n` after `k` bytes. */
  function Counter(width: int, k: nat): int {
    if k == 0 then 1 else if Counter(width, k - 1) == width then 1 else Counter(width, k - 1) + 1
  }

  /** What the loop of `hex_dump` has printed after `k` items, before the closing newline. */
  function Printed(pref: string, width: int, ts: seq<string>, k: nat): string
    requires k <= |ts|
  {
    if k == 0 then ""
    else
      var c := Counter(width, k - 1);
      Printed(pref, width, ts, k - 1) + (if c == 1 then pref else "") + ts[k - 1] + (if c == width then "\n" else "")
  }

  /** Where the open line starts after `k` bytes: just past the last line the loop closed. */
  function Start(width: int, k: nat): (s: nat)
    ensures s <= k
  {
    if k == 0 then 0 else if Counter(width, k - 1) == width then k else Start(width, k - 1)
  }

  /** The counter is the position in the open line, which starts after whole lines. */
  lemma {:induction false} CounterShape(width: int, k: nat)
    ensures Counter(width, k) == k + 1 - Start(width, k)
    ensures width >= 1 ==> Counter(width, k) <= width && WholeLines(width, Start(width, k))
    ensures width < 1 ==> Start(width, k) == 0
  {
    if k > 0 {
      CounterShape(width, k - 1);
    }
  }

  /** The open line: nothing before its first item, then the prefix and its items. */
  function Open(pref: string, ts: seq<string>, s: nat, k: nat): string
    requires s <= k <= |ts|
  {
    if s == k then "" else pref + Text(ts, s, k)
  }

  /** `out` is the full lines of the first `s` items followed by the open line up to item `i`. */
  predicate Shows(pref: string, width: int, ts: seq<string>, s: nat, i: nat, out: string)
    requires s <= i <= |ts|
  {
    out == Lines(pref, width, ts, s) + Open(pref, ts, s, i)
  }

  /** The regroupings of one loop pass, over plain strings. */
  lemma Regroup(l: string, p: string, t: string, b: string)
    ensures (l + "") + p + b == l + (p + ("" + b))
    ensures (l + (p + t)) + b == l + (p + (t + b))
    ensures (l + (p + t)) + "\n" == l + (p + t + "\n")
  {
  }

  lemma NoText(a: string)
    ensures a + "" == a
  {
  }

  /** Printing item `i`, after the prefix when it opens the line, extends the open line. */
  lemma Extend(pref: string, width: int, ts: seq<string>, s: nat, i: nat, out: string)
    requires s <= i < |ts|
    requires Shows(pref, width, ts, s, i, out)
    ensures i == s ==> Shows(pref, width, ts, s, i + 1, out + pref + ts[i])
    ensures i != s ==> Shows(pref, width, ts, s, i + 1, out + ts[i])
  {
    assert Text(ts, s, i + 1) == Text(ts, s, i) + ts[i];
    Regroup(Lines(pref, width, ts, s), pref, Text(ts, s, i), ts[i]);
  }

  /** The newline after the `width`-th item of a line closes it. */
  lemma Close(pref: string, width: int, ts: seq<string>, s: nat, k: nat, out: string)
    requires width >= 1 && s < k <= |ts| && WholeLines(width, s) && k - s == width
    requires Shows(pref, width, ts, s, k, out)
    ensures WholeLines(width, k) && Shows(pref, width, ts, k, k, out + "\n")
  {
    var l := Lines(pref, width, ts, s);
    Regroup(l, pref, Text(ts, s, k), "");
    assert Lines(pref, width, ts, k) == l + Line(pref, ts, s, k);
    NoText(Lines(pref, width, ts, k));
  }

  /** One pass of the loop keeps its output equal to the full lines and the open line. */
  lemma PrintedStep(pref: string, width: int, ts: seq<string>, k: nat)
    requires 0 < k <= |ts|
    requires Shows(pref, width, ts, Start(width, k - 1), k - 1, Printed(pref, width, ts, k - 1))
    ensures Shows(pref, width, ts, Start(width, k), k, Printed(pref, width, ts, k))
  {
    CounterShape(width, k - 1);
    var c, p, s := Counter(width, k - 1), Printed(pref, width, ts, k - 1), Start(width, k - 1);
    Extend(pref, width, ts, s, k - 1, p);
    var o := (if c == 1 then p + pref else p) + ts[k - 1];
    if c != 1 {
      NoText(p);
    }
    if c == width {
      Close(pref, width, ts, s, k, o);
    } else {
      NoText(o);
    }
  }

  /** After `k` items the loop has printed the full lines and the open line so far. */
  lemma {:induction false} PrintedLines(pref: string, width: int, ts: seq<string>, k: nat)
    requires k <= |ts|
    ensures Shows(pref, width, ts, Start(width, k), k, Printed(pref, width, ts, k))
  {
    if k == 0 {
      NoText("");
    } else {
      PrintedLines(pref, width, ts, k - 1);
      PrintedStep(pref, width, ts, k);
    }
  }

  /** The full lines end where the loop last closed a line. */
  lemma {:induction false} WholeIsUnique(width: int, len: nat, s: nat)
    requires width >= 1 && s <= len && len - s < width && WholeLines(width, s)
    ensures s == Whole(width, len)
  {
    if len >= width {
      WholeIsUnique(width, len - width, s - width);
    }
  }

  /** The closing newline of a partial last line completes the layout. */
  lemma Finish(pref: string, width: int, ts: seq<string>, s: nat, out: string)
    requires s <= |ts| && (width >= 1 ==> WholeLines(width, s) && |ts| - s < width) && (width < 1 ==> s == 0)
    requires Shows(pref, width, ts, s, |ts|, out)
    ensures (if s != |ts| then out + "\n" else out) == Layout(pref, width, ts)
  {
    var d := Lines(pref, width, ts, s);
    if width >= 1 {
      WholeIsUnique(width, |ts|, s);
    }
    if s == |ts| {
      NoText(d);
      NoText("");
    } else {
      Regroup(d, pref, Text(ts, s, |ts|), "");
    }
  }

  /** The loop's output, with the newline `hex_dump` adds after a partial last line, is the layout. */
  lemma FinalLine(pref: string, width: int, ts: seq<string>)
    ensures var k := |ts|;
      (if k != 0 && Counter(width, k) != 1 then Printed(pref, width, ts, k) + "\n" else Printed(pref, width, ts, k))
      == Layout(pref, width, ts)
  {
    var k := |ts|;
    PrintedLines(pref, width, ts, k);
    CounterShape(width, k);
    Finish(pref, width, ts, Start(width, k), Printed(pref, width, ts, k));
  }

  /** One pass of the loop, as `Printed` records it. */
  lemma PassStep(pref: string, width: int, ts: seq<string>, i: nat, out: string)
    requires i < |ts| && out == Printed(pref, width, ts, i)
    ensures var c := Counter(width, i);
      var o := (if c == 1 then out + pref else out) + ts[i];
      Printed(pref, width, ts, i + 1) == if c == width then o + "\n" else o
  {
    NoText(out);
    NoText((if Counter(width, i) == 1 then out + pref else out) + ts[i]);
  }

  /** `hex_dump` with its counters: `i` walks `buf`, `n` is the position in the current line. */
  method HexDumpText(pref: string, width: int, buf: seq<byte>) returns (out: string)
    ensures out == Dump(pref, width, buf)
  {
    ghost var ts := Texts(buf);
    out := "";
    var i, n := 0, 1;
    while i < |buf|
      invariant 0 <= i <= |buf| && n == Counter(width, i)
      invariant out == Printed(pref, width, ts, i)
    {
      TextsAt(buf, i);
      PassStep(pref, width, ts, i, out);
      if n == 1 {
        out := out + pref;
      }
      out := out + ByteText(buf[i]);
      if n == width {
        out := out + "\n";
        n := 0;
      }
      i, n := i + 1, n + 1;
    }
    FinalLine(pref, width, ts);
    if i != 0 && n != 1 {
      out := out + "\n";
    }
  }
}
