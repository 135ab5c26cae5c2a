/**
 * `read_advertise` (bletool.c:122-145): read one HCI event into the global
 * `recvbuf`, copy the advertising data of its first LE Advertising Report
 * (Bluetooth Core Specification, Vol 4, Part E, section 7.7.65.2) and return
 * the event's parameter length. The blocking `read` becomes a sequence of
 * read outcomes, consumed from the front.
 */
module Report {
  import opened Bytes
  import opened Wrappers

  /** The packet-type byte and the two-byte event header (`1 + HCI_EVENT_HDR_SIZE`). */
  const EVENT_PREFIX: nat := 3
  /**
   * Offset of the advertising data in a frame: packet type, event code,
   * parameter length, subevent, report count, event type, address type,
   * six address bytes and the data length byte.
   */
  const ADV_DATA_OFFSET: nat := 14
  /** Bytes the receive loop asks for (`dat[31]`). */
  const ADV_DATA_LEN: nat := 31

  const HCI_EVENT_PKT: byte := 0x04
  const EVT_LE_META_EVENT: byte := 0x3E
  const EVT_LE_ADVERTISING_REPORT: byte := 0x02

  datatype Errno = EINTR | EAGAIN | OtherErrno(code: int)

  /**
   * What one `read(dd, recvbuf, 260)` comes back with: the bytes of a frame,
   * or a failure with its `errno` and whether `signal_received == SIGINT`
   * at that moment.
   */
  datatype ReadResult = Frame(bytes: seq<byte>) | Failed(errno: Errno, sigint: bool)

  /** A failed read that `read_advertise` turns into return value 0. */
  predicate Interrupt(r: ReadResult) {
    r.Failed? && r.errno == EINTR && r.sigint
  }

  /** An outcome that ends the retry loop; every other one is retried. */
  predicate Returns(r: ReadResult) {
    r.Frame? || Interrupt(r)
  }

  /** An outcome after which `read_advertise` returns 0: an interrupt, or a 3-byte frame. */
  predicate Stops(r: ReadResult) {
    Interrupt(r) || (r.Frame? && |r.bytes| == EVENT_PREFIX)
  }

  /** No frame is longer than `recvbuf`. */
  predicate Fits(inbox: seq<ReadResult>) {
    forall i :: 0 <= i < |inbox| && inbox[i].Frame? ==> |inbox[i].bytes| <= HCI_MAX_EVENT_SIZE
  }

  /** Some outcome ends the retry loop, so `read_advertise` returns. */
  predicate Terminates(inbox: seq<ReadResult>) {
    |inbox| > 0 && (Returns(inbox[0]) || Terminates(inbox[1..]))
  }

  lemma FitsTail(inbox: seq<ReadResult>, k: nat)
    requires Fits(inbox) && k <= |inbox|
    ensures Fits(inbox[k..])
  {
    forall i | 0 <= i < |inbox[k..]| && inbox[k..][i].Frame?
      ensures |inbox[k..][i].bytes| <= HCI_MAX_EVENT_SIZE
    {
      assert inbox[k..][i] == inbox[k + i];
    }
  }

  /** Index of the outcome that ends the retry loop. */
  function FirstReturn(inbox: seq<ReadResult>): (k: nat)
    requires Terminates(inbox)
    ensures k < |inbox| && Returns(inbox[k])
    ensures forall j :: 0 <= j < k ==> !Returns(inbox[j])
  {
    if Returns(inbox[0]) then 0 else 1 + FirstReturn(inbox[1..])
  }

  /** `recvbuf` after `read` stored frame `f`: only its first `|f|` bytes change. */
  function Fill(recv: seq<byte>, f: seq<byte>): (r: seq<byte>)
    requires |f| <= |recv|
    ensures |r| == |recv| && r[..|f|] == f && r[|f|..] == recv[|f|..]
  {
    f + recv[|f|..]
  }

  /**
   * One call of `read_advertise`: its return value, the `datalen` bytes it
   * copied into `data` (None when it returned without copying), the new
   * `recvbuf` and the outcomes still unread.
   */
  datatype ReadStep = ReadStep(ret: int, payload: Option<seq<byte>>, recv: seq<byte>, rest: seq<ReadResult>)

  /** What `read_advertise` does with the outcome `r` that ends its retry loop. */
  function Outcome(recv: seq<byte>, r: ReadResult, rest: seq<ReadResult>, n: nat): (s: ReadStep)
    requires |recv| == HCI_MAX_EVENT_SIZE && ADV_DATA_OFFSET + n <= HCI_MAX_EVENT_SIZE
    requires Returns(r) && (r.Frame? ==> |r.bytes| <= HCI_MAX_EVENT_SIZE)
    ensures s.rest == rest && |s.recv| == HCI_MAX_EVENT_SIZE
    ensures s.payload.Some? <==> r.Frame?
    ensures !r.Frame? ==> s.ret == 0 && s.recv == recv
    ensures r.Frame? ==> && s.ret == |r.bytes| - EVENT_PREFIX
                         && s.recv[..|r.bytes|] == r.bytes && s.recv[|r.bytes|..] == recv[|r.bytes|..]
                         && s.payload.value == s.recv[ADV_DATA_OFFSET..ADV_DATA_OFFSET + n]
  {
    if r.Frame? then
      var buf := Fill(recv, r.bytes);
      ReadStep(|r.bytes| - EVENT_PREFIX, Some(buf[ADV_DATA_OFFSET..ADV_DATA_OFFSET + n]), buf, rest)
    else
      ReadStep(0, None, recv, rest)
  }

  /** `read_advertise(dd, data, n)` with `recvbuf == recv`, reading from `inbox`. */
  function ReadAdv(recv: seq<byte>, inbox: seq<ReadResult>, n: nat): (s: ReadStep)
    requires |recv| == HCI_MAX_EVENT_SIZE && ADV_DATA_OFFSET + n <= HCI_MAX_EVENT_SIZE
    requires Fits(inbox) && Terminates(inbox)
    ensures |s.recv| == HCI_MAX_EVENT_SIZE
    ensures |s.rest| < |inbox| && s.rest == inbox[|inbox| - |s.rest|..]
    ensures s.payload.Some? ==> |s.payload.value| == n
    ensures s.payload.None? ==> s.ret == 0 && s.recv == recv
    decreases |inbox|
  {
    if Returns(inbox[0]) then
      Outcome(recv, inbox[0], inbox[1..], n)
    else
      FitsTail(inbox, 1);
      var s := ReadAdv(recv, inbox[1..], n);
      assert inbox[1..][|inbox| - 1 - |s.rest|..] == inbox[|inbox| - |s.rest|..];
      s
  }

  /** Every failed read before the first returning outcome is retried and leaves no trace. */
  lemma {:induction false} ReadAdvFirst(recv: seq<byte>, inbox: seq<ReadResult>, n: nat)
    requires |recv| == HCI_MAX_EVENT_SIZE && ADV_DATA_OFFSET + n <= HCI_MAX_EVENT_SIZE
    requires Fits(inbox) && Terminates(inbox)
    ensures var k := FirstReturn(inbox);
      ReadAdv(recv, inbox, n) == Outcome(recv, inbox[k], inbox[k + 1..], n)
    decreases |inbox|
  {
    if !Returns(inbox[0]) {
      FitsTail(inbox, 1);
      ReadAdvFirst(recv, inbox[1..], n);
      var k := FirstReturn(inbox);
      assert inbox[1..][k - 1] == inbox[k];
      assert inbox[1..][k..] == inbox[k + 1..];
    }
  }

  /** `read_advertise` returns 0 exactly on an interrupt or a 3-byte frame. */
  lemma ReadAdvZero(recv: seq<byte>, inbox: seq<ReadResult>, n: nat)
    requires |recv| == HCI_MAX_EVENT_SIZE && ADV_DATA_OFFSET + n <= HCI_MAX_EVENT_SIZE
    requires Fits(inbox) && Terminates(inbox)
    ensures ReadAdv(recv, inbox, n).ret == 0 <==> Stops(inbox[FirstReturn(inbox)])
  {
    ReadAdvFirst(recv, inbox, n);
  }

  /**
   * The copied bytes are frame bytes 14.. as far as the frame reaches and
   * stale `recvbuf` bytes beyond it: the frame length is never checked.
   * The return value is the frame length minus 3, negative for frames
   * shorter than 3 bytes.
   */
  lemma ReadAdvBytes(recv: seq<byte>, inbox: seq<ReadResult>, n: nat)
    requires |recv| == HCI_MAX_EVENT_SIZE && ADV_DATA_OFFSET + n <= HCI_MAX_EVENT_SIZE
    requires Fits(inbox) && Terminates(inbox)
    requires inbox[FirstReturn(inbox)].Frame?
    ensures var f, s := inbox[FirstReturn(inbox)].bytes, ReadAdv(recv, inbox, n);
      s.ret == |f| - EVENT_PREFIX && s.payload.Some? &&
      forall i :: 0 <= i < n ==>
        s.payload.value[i] == if ADV_DATA_OFFSET + i < |f| then f[ADV_DATA_OFFSET + i] else recv[ADV_DATA_OFFSET + i]
  {
    ReadAdvFirst(recv, inbox, n);
  }

  /** Outcomes after the one that ends the retry loop are left unread. */
  lemma {:induction false} ReadAdvIgnoresLater(recv: seq<byte>, a: seq<ReadResult>, b: seq<ReadResult>, n: nat)
    requires |recv| == HCI_MAX_EVENT_SIZE && ADV_DATA_OFFSET + n <= HCI_MAX_EVENT_SIZE
    requires Fits(a + b) && Terminates(a)
    ensures Fits(a) && Terminates(a + b)
    ensures var s := ReadAdv(recv, a, n); ReadAdv(recv, a + b, n) == s.(rest := s.rest + b)
    decreases |a|
  {
    assert Fits(a) by {
      forall i | 0 <= i < |a| && a[i].Frame? ensures |a[i].bytes| <= HCI_MAX_EVENT_SIZE {
        assert (a + b)[i] == a[i];
      }
    }
    assert (a + b)[0] == a[0];
    if !Returns(a[0]) {
      assert (a + b)[1..] == a[1..] + b;
      FitsTail(a + b, 1);
      ReadAdvIgnoresLater(recv, a[1..], b, n);
    } else {
      assert (a + b)[1..] == a[1..] + b;
    }
  }

  datatype DecodeError = MalformedFrame

  /**
   * A decoder that checks what `read_advertise` leaves unchecked: the frame
   * must hold the 31 bytes it copies.
   */
  function DecodeReport(f: seq<byte>): Result<seq<byte>, DecodeError> {
    if |f| < ADV_DATA_OFFSET + ADV_DATA_LEN then Err(MalformedFrame)
    else Ok(f[ADV_DATA_OFFSET..ADV_DATA_OFFSET + ADV_DATA_LEN])
  }

  /** On every frame the checked decoder accepts, `read_advertise` copies what it decodes. */
  lemma ReadAdvDecodes(recv: seq<byte>, inbox: seq<ReadResult>)
    requires |recv| == HCI_MAX_EVENT_SIZE
    requires Fits(inbox) && Terminates(inbox)
    requires var r := inbox[FirstReturn(inbox)]; r.Frame? && DecodeReport(r.bytes).Ok?
    ensures var f, s := inbox[FirstReturn(inbox)].bytes, ReadAdv(recv, inbox, ADV_DATA_LEN);
      s == ReadStep(|f| - EVENT_PREFIX, Some(DecodeReport(f).value), Fill(recv, f), inbox[FirstReturn(inbox) + 1..])
  {
    ReadAdvFirst(recv, inbox, ADV_DATA_LEN);
    var f := inbox[FirstReturn(inbox)].bytes;
    var buf := Fill(recv, f);
    assert buf[ADV_DATA_OFFSET..ADV_DATA_OFFSET + ADV_DATA_LEN] == buf[..|f|][ADV_DATA_OFFSET..ADV_DATA_OFFSET + ADV_DATA_LEN];
  }

  /** A frame too short for the checked decoder still makes `read_advertise` copy stale bytes. */
  lemma ShortFrameIsStale(recv: seq<byte>, f: seq<byte>)
    requires |recv| == HCI_MAX_EVENT_SIZE && |f| <= ADV_DATA_OFFSET
    ensures DecodeReport(f) == Err(MalformedFrame)
    ensures ReadAdv(recv, [Frame(f)], ADV_DATA_LEN).payload == Some(recv[ADV_DATA_OFFSET..ADV_DATA_OFFSET + ADV_DATA_LEN])
  {
    var inbox := [Frame(f)];
    assert Terminates(inbox) && FirstReturn(inbox) == 0;
    ReadAdvBytes(recv, inbox, ADV_DATA_LEN);
    var p := ReadAdv(recv, inbox, ADV_DATA_LEN).payload.value;
    assert p == recv[ADV_DATA_OFFSET..ADV_DATA_OFFSET + ADV_DATA_LEN];
  }

  /**
   * An LE Advertising Report event with one report as the controller sends
   * it: packet type, event code 0x3E, parameter length, subevent 0x02, one
   * report, event type, address type, address, data length, data and the
   * bytes after the data (RSSI, or padding).
   */
  function ReportFrame(evtType: byte, addrType: byte, addr: seq<byte>, data: seq<byte>, trailing: seq<byte>): (f: seq<byte>)
    requires |addr| == 6 && |data| <= ADV_DATA_LEN && 11 + |data| + |trailing| < 256
  {
    [HCI_EVENT_PKT, EVT_LE_META_EVENT, 11 + |data| + |trailing|, EVT_LE_ADVERTISING_REPORT, 0x01, evtType, addrType]
      + addr + [|data|] + data + trailing
  }

  /**
   * On a report frame the return value is the event's parameter length and
   * the copied bytes are the advertising data followed by whatever comes
   * after it: the data length byte is ignored.
   */
  lemma ReportFrameDecodes(evtType: byte, addrType: byte, addr: seq<byte>, data: seq<byte>, trailing: seq<byte>)
    requires |addr| == 6 && |data| <= ADV_DATA_LEN && 11 + |data| + |trailing| < 256
    requires |data| + |trailing| >= ADV_DATA_LEN
    ensures var f := ReportFrame(evtType, addrType, addr, data, trailing);
      |f| - EVENT_PREFIX == f[2] as int &&
      DecodeReport(f) == Ok((data + trailing)[..ADV_DATA_LEN])
  {
    var f := ReportFrame(evtType, addrType, addr, data, trailing);
    assert f[ADV_DATA_OFFSET..] == data + trailing;
    assert f[ADV_DATA_OFFSET..ADV_DATA_OFFSET + ADV_DATA_LEN] == f[ADV_DATA_OFFSET..][..ADV_DATA_LEN];
  }
}
