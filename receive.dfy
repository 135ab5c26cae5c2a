/**
 * The receive loop of `print_advertising_devices` (bletool.c:147-161):
 * read advertising reports until `read_advertise` returns 0, and dump the
 * 31 copied bytes of each one as a line of hex.
 */
module Receive {
  import opened Bytes
  import opened Wrappers
  import opened Report
  import opened HexDump

  /** The prefix and width the loop passes to `hex_dump`. */
  const DUMP_PREFIX: string := "  "
  const DUMP_WIDTH: int := 40

  /**
   * What the loop does with a run of read outcomes: the payloads it dumped,
   * `recvbuf` and the outcomes left afterwards, and whether it stopped
   * (`stopped` is false when a `read` is still waiting for an outcome that
   * the run does not hold).
   */
  datatype Listened = Listened(payloads: seq<seq<byte>>, recv: seq<byte>, rest: seq<ReadResult>, stopped: bool)

  /** Every payload holds the 31 bytes the loop asks for. */
  predicate Sized(payloads: seq<seq<byte>>) {
    forall i :: 0 <= i < |payloads| ==> |payloads[i]| == ADV_DATA_LEN
  }

  lemma SizedCons(p: seq<byte>, payloads: seq<seq<byte>>)
    requires |p| == ADV_DATA_LEN && Sized(payloads)
    ensures Sized([p] + payloads)
  {
    forall i | 0 <= i < |[p] + payloads| ensures |([p] + payloads)[i]| == ADV_DATA_LEN {
      if i > 0 {
        assert ([p] + payloads)[i] == payloads[i - 1];
      }
    }
  }

  /** The receive loop: read reports of 31 bytes and dump each one until a read returns 0. */
  function Listen(recv: seq<byte>, inbox: seq<ReadResult>): (l: Listened)
    requires |recv| == HCI_MAX_EVENT_SIZE && Fits(inbox)
    ensures |l.recv| == HCI_MAX_EVENT_SIZE && |l.rest| <= |inbox| && Fits(l.rest)
    ensures Sized(l.payloads)
    decreases |inbox|
  {
    if !Terminates(inbox) then Listened([], recv, [], false)
    else
      var s := ReadAdv(recv, inbox, ADV_DATA_LEN);
      FitsTail(inbox, |inbox| - |s.rest|);
      if s.ret == 0 then Listened([], s.recv, s.rest, true)
      else
        var l := Listen(s.recv, s.rest);
        SizedCons(s.payload.value, l.payloads);
        Listened([s.payload.value] + l.payloads, l.recv, l.rest, l.stopped)
  }

  /** The loop's result once `done` has been dumped and `inbox` is still to be read from `recv`. */
  function Resume(done: seq<seq<byte>>, recv: seq<byte>, inbox: seq<ReadResult>): Listened
    requires |recv| == HCI_MAX_EVENT_SIZE && Fits(inbox)
  {
    var l := Listen(recv, inbox);
    l.(payloads := done + l.payloads)
  }

  /** One pass of the loop: a read that returns, then the stop, or a dump and the rest of the loop. */
  lemma ResumeStep(done: seq<seq<byte>>, recv: seq<byte>, inbox: seq<ReadResult>)
    requires |recv| == HCI_MAX_EVENT_SIZE && Fits(inbox) && Terminates(inbox)
    ensures var s := ReadAdv(recv, inbox, ADV_DATA_LEN);
      && Fits(s.rest)
      && (s.ret == 0 ==> Resume(done, recv, inbox) == Listened(done, s.recv, s.rest, true))
      && (s.ret != 0 ==> s.payload.Some? && Resume(done, recv, inbox) == Resume(done + [s.payload.value], s.recv, s.rest))
  {
    var s := ReadAdv(recv, inbox, ADV_DATA_LEN);
    FitsTail(inbox, |inbox| - |s.rest|);
    if s.ret == 0 {
      assert done + [] == done;
    } else {
      var l := Listen(s.recv, s.rest);
      assert done + ([s.payload.value] + l.payloads) == (done + [s.payload.value]) + l.payloads;
    }
  }

  /** A read that never returns leaves the loop waiting. */
  lemma ResumeBlocked(done: seq<seq<byte>>, recv: seq<byte>, inbox: seq<ReadResult>)
    requires |recv| == HCI_MAX_EVENT_SIZE && Fits(inbox) && !Terminates(inbox)
    ensures Resume(done, recv, inbox) == Listened(done, recv, [], false)
  {
    assert done + [] == done;
  }

  /** Everything the loop prints: one dump per payload, in order. */
  function Output(payloads: seq<seq<byte>>): string {
    if payloads == [] then "" else Output(payloads[..|payloads| - 1]) + Dump(DUMP_PREFIX, DUMP_WIDTH, payloads[|payloads| - 1])
  }

  lemma Append3(a: string, b: string, c: string)
    ensures (a + b) + c == a + (b + c)
  {
  }

  lemma OutputSnoc(payloads: seq<seq<byte>>, p: seq<byte>)
    ensures Output(payloads + [p]) == Output(payloads) + Dump(DUMP_PREFIX, DUMP_WIDTH, p)
  {
    assert (payloads + [p])[..|payloads|] == payloads;
  }

  /** A 31-byte payload is one line: the prefix, 31 bytes of hex and a newline. */
  lemma DumpOneLine(p: seq<byte>)
    requires |p| == ADV_DATA_LEN
    ensures Dump(DUMP_PREFIX, DUMP_WIDTH, p) == DUMP_PREFIX + Text(Texts(p), 0, |p|) + "\n"
    ensures |Dump(DUMP_PREFIX, DUMP_WIDTH, p)| == 96
  {
    var ts := Texts(p);
    assert Whole(DUMP_WIDTH, |ts|) == 0;
    var line := Line(DUMP_PREFIX, ts, 0, |ts|);
    assert Layout(DUMP_PREFIX, DUMP_WIDTH, ts) == "" + line;
    assert "" + line == line;
    DumpLength(DUMP_PREFIX, DUMP_WIDTH, p);
    assert LineCount(DUMP_WIDTH, |p|) == 1 && |DUMP_PREFIX| == 2;
    assert |Dump(DUMP_PREFIX, DUMP_WIDTH, p)| == 3 * 31 + 1 * (2 + 1);
  }

  /** The loop prints 96 characters per payload. */
  lemma {:induction false} OutputLength(payloads: seq<seq<byte>>)
    requires Sized(payloads)
    ensures |Output(payloads)| == 96 * |payloads|
  {
    if payloads != [] {
      OutputLength(payloads[..|payloads| - 1]);
      DumpOneLine(payloads[|payloads| - 1]);
    }
  }

  /**
   * After the first 0 return nothing more is read or printed: outcomes
   * appended after a run that stops change nothing but what is left unread.
   */
  lemma {:induction false} ListenIgnoresLater(recv: seq<byte>, a: seq<ReadResult>, b: seq<ReadResult>)
    requires |recv| == HCI_MAX_EVENT_SIZE && Fits(a + b) && Fits(a)
    requires Listen(recv, a).stopped
    ensures var l := Listen(recv, a); Listen(recv, a + b) == l.(rest := l.rest + b)
    decreases |a|
  {
    ReadAdvIgnoresLater(recv, a, b, ADV_DATA_LEN);
    var s := ReadAdv(recv, a, ADV_DATA_LEN);
    if s.ret != 0 {
      FitsTail(a, |a| - |s.rest|);
      FitsTail(a + b, |a + b| - |s.rest + b|);
      ListenIgnoresLater(s.recv, s.rest, b);
    }
  }

  /** The frames of a run of reads. */
  function Frames(fs: seq<seq<byte>>): (inbox: seq<ReadResult>)
    ensures |inbox| == |fs| && forall i :: 0 <= i < |fs| ==> inbox[i] == Frame(fs[i])
  {
    seq(|fs|, i requires 0 <= i < |fs| => Frame(fs[i]))
  }

  /** Frames the checked decoder accepts, no longer than a read. */
  predicate Reports(fs: seq<seq<byte>>) {
    forall i :: 0 <= i < |fs| ==> |fs[i]| <= HCI_MAX_EVENT_SIZE && DecodeReport(fs[i]).Ok?
  }

  /** What the checked decoder makes of each frame. */
  function Decoded(fs: seq<seq<byte>>): (ps: seq<seq<byte>>)
    requires Reports(fs)
    ensures |ps| == |fs|
  {
    seq(|fs|, i requires 0 <= i < |fs| => DecodeReport(fs[i]).value)
  }

  /** The run of frames of `fs`, then the outcome `last`. */
  lemma FramesThen(fs: seq<seq<byte>>, last: ReadResult)
    requires Reports(fs) && !last.Frame?
    ensures Fits(Frames(fs) + [last])
    ensures fs != [] ==> (Frames(fs) + [last])[0] == Frame(fs[0]) && (Frames(fs) + [last])[1..] == Frames(fs[1..]) + [last]
  {
    var inbox := Frames(fs) + [last];
    forall i | 0 <= i < |inbox| && inbox[i].Frame? ensures |inbox[i].bytes| <= HCI_MAX_EVENT_SIZE {
      assert inbox[i] == Frame(fs[i]);
    }
  }

  lemma DecodedCons(fs: seq<seq<byte>>)
    requires Reports(fs) && fs != []
    ensures Reports(fs[1..]) && Decoded(fs) == [DecodeReport(fs[0]).value] + Decoded(fs[1..])
  {
    assert Reports(fs[1..]) by {
      forall i | 0 <= i < |fs[1..]| ensures |fs[1..][i]| <= HCI_MAX_EVENT_SIZE && DecodeReport(fs[1..][i]).Ok? {
        assert fs[1..][i] == fs[i + 1];
      }
    }
  }

  /**
   * Well-formed reports followed by Ctrl-C: the loop dumps bytes 14 to 44 of
   * every frame, in the order read, and stops with nothing left unread.
   */
  lemma {:induction false} ListenReports(recv: seq<byte>, fs: seq<seq<byte>>)
    requires |recv| == HCI_MAX_EVENT_SIZE && Reports(fs)
    ensures Fits(Frames(fs) + [Failed(EINTR, true)])
    ensures var l := Listen(recv, Frames(fs) + [Failed(EINTR, true)]);
      l.stopped && l.rest == [] && l.payloads == Decoded(fs)
    decreases |fs|
  {
    var inbox := Frames(fs) + [Failed(EINTR, true)];
    FramesThen(fs, Failed(EINTR, true));
    if fs == [] {
      assert Terminates(inbox) && FirstReturn(inbox) == 0;
      ReadAdvZero(recv, inbox, ADV_DATA_LEN);
    } else {
      assert Terminates(inbox) && FirstReturn(inbox) == 0;
      ReadAdvDecodes(recv, inbox);
      DecodedCons(fs);
      ListenReports(ReadAdv(recv, inbox, ADV_DATA_LEN).recv, fs[1..]);
    }
  }
}
