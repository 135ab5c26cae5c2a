/**
 * The Bluetooth adapter as `bletool.c` sees it through the socket and
 * BlueZ calls: open device handles, each with its event filter, the LE scan
 * state, and a log of the requests that took effect. Whether a call succeeds
 * is decided by the operating system and the controller, so every primitive
 * takes that answer as a parameter `ok`.
 */
module Radio {
  import opened Bytes
  import opened Wrappers
  import opened Hci
  import opened Report

  /**
   * Socket event filters, kept abstract: the zeroed static `ofilter`, the
   * filter a fresh socket starts with, the filter `ctrl_command` installs
   * (event packets, all events) and the one `lescan_setup` installs (event
   * packets, LE Meta events only).
   */
  datatype Filter = Cleared | SocketDefault | AllEvents | LeMetaOnly

  /** The arguments of `hci_le_set_scan_parameters`. */
  datatype ScanParams = ScanParams(scanType: byte, interval: u16, window: u16, ownType: byte, filterPolicy: byte)

  /** Passive scanning, interval and window 0x0010, public own address, accept all. */
  const SETUP_PARAMS: ScanParams := ScanParams(0x00, 0x0010, 0x0010, 0x00, 0x00)

  /** A request that took effect, in the order it was made. */
  datatype Request =
    | Sent(cmd: Command)
    | ScanParameters(params: ScanParams)
    | ScanEnable(enable: bool, filterDup: bool)
    | FilterSet(dd: int, filter: Filter)

  /**
   * The open handles with their filters, the next handle `hci_open_dev`
   * hands out, the scan state, the log, and the events waiting to be read.
   */
  datatype RadioState = RadioState(
    handles: map<int, Filter>,
    next: int,
    scanning: bool,
    params: Option<ScanParams>,
    log: seq<Request>,
    events: seq<ReadResult>)

  /** Handles are non-negative and below `next`; no event exceeds a read. */
  predicate Good(r: RadioState) {
    && 0 <= r.next
    && (forall h :: h in r.handles ==> 0 <= h < r.next)
    && Fits(r.events)
  }

  /** `hci_open_dev`: a fresh handle with the default filter, or -1. */
  function OpenDev(r: RadioState, ok: bool): (res: (RadioState, int))
    requires Good(r)
    ensures Good(res.0)
    ensures ok ==> res.1 !in r.handles && res.0.handles == r.handles[res.1 := SocketDefault]
  {
    if ok then (r.(handles := r.handles[r.next := SocketDefault], next := r.next + 1), r.next)
    else (r, -1)
  }

  /** `setsockopt(dd, SOL_HCI, HCI_FILTER, ...)`: fails on a handle that is not open. */
  function SetFilter(r: RadioState, dd: int, f: Filter, ok: bool): (res: (RadioState, bool)) {
    if ok && dd in r.handles then (r.(handles := r.handles[dd := f], log := r.log + [FilterSet(dd, f)]), true)
    else (r, false)
  }

  /** `getsockopt(dd, SOL_HCI, HCI_FILTER, ...)`. */
  function GetFilter(r: RadioState, dd: int, ok: bool): Option<Filter> {
    if ok && dd in r.handles then Some(r.handles[dd]) else None
  }

  /** `hci_send_cmd`. */
  function SendCmd(r: RadioState, dd: int, c: Command, ok: bool): (res: (RadioState, bool)) {
    if ok && dd in r.handles then (r.(log := r.log + [Sent(c)]), true) else (r, false)
  }

  /** `hci_le_set_scan_parameters`, completed by the controller or not. */
  function SetScanParams(r: RadioState, dd: int, p: ScanParams, ok: bool): (res: (RadioState, bool)) {
    if ok && dd in r.handles then (r.(params := Some(p), log := r.log + [ScanParameters(p)]), true) else (r, false)
  }

  /** `hci_le_set_scan_enable`. */
  function SetScanEnable(r: RadioState, dd: int, enable: bool, dup: bool, ok: bool): (res: (RadioState, bool)) {
    if ok && dd in r.handles then (r.(scanning := enable, log := r.log + [ScanEnable(enable, dup)]), true) else (r, false)
  }

  /** `hci_close_dev`. */
  function CloseDev(r: RadioState, dd: int): RadioState {
    r.(handles := r.handles - {dd})
  }

  /** The adapter, whose state the calls change in place. */
  class Adapter {
    var handles: map<int, Filter>
    var next: int
    var scanning: bool
    var params: Option<ScanParams>
    var log: seq<Request>
    var events: seq<ReadResult>

    function Snapshot(): RadioState
      reads this
    {
      RadioState(handles, next, scanning, params, log, events)
    }

    ghost predicate Valid()
      reads this
    {
      Good(Snapshot())
    }

    /** An adapter with no handle open, not scanning, that will deliver `events`. */
    constructor (events: seq<ReadResult>)
      requires Fits(events)
      ensures Valid() && Snapshot() == RadioState(map[], 0, false, None, [], events)
    {
      handles, next, scanning, params, log := map[], 0, false, None, [];
      this.events := events;
    }

    method Open(ok: bool) returns (dd: int)
      requires Valid()
      modifies this
      ensures Valid() && (Snapshot(), dd) == OpenDev(old(Snapshot()), ok)
    {
      if ok {
        dd := next;
        handles, next := handles[next := SocketDefault], next + 1;
      } else {
        dd := -1;
      }
    }

    method SetSockOpt(dd: int, f: Filter, ok: bool) returns (success: bool)
      requires Valid()
      modifies this
      ensures Valid() && (Snapshot(), success) == SetFilter(old(Snapshot()), dd, f, ok)
    {
      success := ok && dd in handles;
      if success {
        handles, log := handles[dd := f], log + [FilterSet(dd, f)];
      }
    }

    method GetSockOpt(dd: int, ok: bool) returns (f: Option<Filter>)
      ensures f == GetFilter(Snapshot(), dd, ok)
    {
      f := if ok && dd in handles then Some(handles[dd]) else None;
    }

    method Send(dd: int, c: Command, ok: bool) returns (success: bool)
      requires Valid()
      modifies this
      ensures Valid() && (Snapshot(), success) == SendCmd(old(Snapshot()), dd, c, ok)
    {
      success := ok && dd in handles;
      if success {
        log := log + [Sent(c)];
      }
    }

    method SetScanParameters(dd: int, p: ScanParams, ok: bool) returns (success: bool)
      requires Valid()
      modifies this
      ensures Valid() && (Snapshot(), success) == SetScanParams(old(Snapshot()), dd, p, ok)
    {
      success := ok && dd in handles;
      if success {
        params, log := Some(p), log + [ScanParameters(p)];
      }
    }

    method EnableScan(dd: int, enable: bool, dup: bool, ok: bool) returns (success: bool)
      requires Valid()
      modifies this
      ensures Valid() && (Snapshot(), success) == SetScanEnable(old(Snapshot()), dd, enable, dup, ok)
    {
      success := ok && dd in handles;
      if success {
        scanning, log := enable, log + [ScanEnable(enable, dup)];
      }
    }

    method Close(dd: int)
      requires Valid()
      modifies this
      ensures Valid() && Snapshot() == CloseDev(old(Snapshot()), dd)
    {
      handles := handles - {dd};
    }

    /**
     * `read(dd, buf, 260)` with an event pending: a frame overwrites the
     * front of `buf`, a failure leaves it alone.
     */
    method Read(dd: int, buf: array<byte>) returns (r: ReadResult)
      requires Valid() && dd in handles && |events| > 0 && buf.Length == HCI_MAX_EVENT_SIZE
      modifies this, buf
      ensures Valid() && r == old(events[0])
      ensures Snapshot() == old(Snapshot()).(events := old(events[1..]))
      ensures buf[..] == if r.Frame? then Fill(old(buf[..]), r.bytes) else old(buf[..])
    {
      r := events[0];
      FitsTail(events, 1);
      assert r.Frame? ==> |r.bytes| <= HCI_MAX_EVENT_SIZE by {
        assert events[0] == r;
      }
      events := events[1..];
      if r.Frame? {
        ghost var before := buf[..];
        forall k | 0 <= k < |r.bytes| {
          buf[k] := r.bytes[k];
        }
        assert buf[..] == Fill(before, r.bytes);
      }
    }
  }
}
