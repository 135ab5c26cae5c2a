/**
 * `bletool.c` as a program: its globals `ofilter` and `recvbuf`, standard
 * output, and the adapter it talks to, changed in place by the procedures
 * of the C file. Each procedure is proved to do what the matching function
 * of `Session`, `Report` or `Receive` states.
 */
module BleTool {
  import opened Bytes
  import opened Wrappers
  import opened Hex
  import opened Hci
  import opened Report
  import opened HexDump
  import opened Receive
  import opened Radio
  import opened Session

  class Tool {
    const radio: Adapter
    /** The global 260-byte receive buffer `recvbuf`. */
    const recvbuf: array<byte>
    /** The global saved socket filter `ofilter`. */
    var ofilter: Filter
    /** Everything written to standard output so far. */
    var out: string

    ghost predicate Valid()
      reads this, radio
    {
      recvbuf.Length == HCI_MAX_EVENT_SIZE && radio.Valid()
    }

    function Snapshot(): World
      reads this, radio, recvbuf
    {
      World(radio.Snapshot(), ofilter, recvbuf[..], out)
    }

    /** The program at start-up: zeroed globals, nothing printed, an adapter that will deliver `events`. */
    constructor (events: seq<ReadResult>)
      requires Fits(events)
      ensures Valid() && fresh(radio) && fresh(recvbuf)
      ensures Snapshot() == World(RadioState(map[], 0, false, None, [], events), Cleared, seq(HCI_MAX_EVENT_SIZE, _ => 0), "")
    {
      radio := new Adapter(events);
      recvbuf := new byte[HCI_MAX_EVENT_SIZE](_ => 0);
      ofilter := Cleared;
      out := "";
    }

    /** `ctrl_command(ogf, ocf, data)` (bletool.c:61-90). */
    method CtrlCommand(ogf: byte, ocf: u16, data: string, rep: CommandReplies) returns (status: Status)
      requires Valid() && IsHexString(data) && |data| / 2 <= HCI_MAX_EVENT_SIZE
      modifies radio
      ensures Valid()
      ensures Effect(radio.Snapshot(), status) == Session.CtrlCommand(old(radio.Snapshot()), ogf, ocf, data, rep)
    {
      var dd := radio.Open(rep.open);
      if dd < 0 {
        return Exit(1);
      }
      var buf := HexToBytes(data);
      var filtered := radio.SetSockOpt(dd, AllEvents, rep.filter);
      if !filtered {
        radio.Close(dd);
        return Exit(EXIT_FAILURE);
      }
      // `hci_send_cmd` receives `len` as its one-byte parameter length.
      var plen := |buf| % 256;
      var sent := radio.Send(dd, Command(ogf, ocf, buf[..plen]), rep.send);
      radio.Close(dd);
      status := if sent then Done else Exit(EXIT_FAILURE);
    }

    /** `configure(min_interval, max_interval)` (bletool.c:92-97). */
    method Configure(minInterval: u16, maxInterval: u16, rep: CommandReplies) returns (status: Status)
      requires Valid()
      modifies radio
      ensures Valid()
      ensures Effect(radio.Snapshot(), status) == Session.CtrlCommand(old(radio.Snapshot()), OGF_LE_CTL, OCF_LE_SET_ADVERTISING_PARAMETERS, ConfigureText(minInterval, maxInterval), rep)
    {
      var data := ConfigureText(minInterval, maxInterval);
      status := CtrlCommand(OGF_LE_CTL, OCF_LE_SET_ADVERTISING_PARAMETERS, data, rep);
    }

    /** `set_advertisement_data(data)` (bletool.c:109-118). */
    method SetAdvertisementData(d: string, rep: CommandReplies) returns (status: Status)
      requires Valid() && IsHexString(d) && |d| <= MAX_ADV_HEX
      modifies radio
      ensures Valid()
      ensures Effect(radio.Snapshot(), status) == Session.CtrlCommand(old(radio.Snapshot()), OGF_LE_CTL, OCF_LE_SET_ADVERTISING_DATA, AdvText(d), rep)
    {
      var alldata := BuildAdvText(d);
      status := CtrlCommand(OGF_LE_CTL, OCF_LE_SET_ADVERTISING_DATA, alldata, rep);
    }

    /** `advertise_on()` and `advertise_off()` (bletool.c:99-107). */
    method AdvertiseEnable(on: bool, rep: CommandReplies) returns (status: Status)
      requires Valid()
      modifies radio
      ensures Valid()
      ensures Effect(radio.Snapshot(), status) == Session.CtrlCommand(old(radio.Snapshot()), OGF_LE_CTL, OCF_LE_SET_ADVERTISE_ENABLE, EnableText(on), rep)
    {
      status := CtrlCommand(OGF_LE_CTL, OCF_LE_SET_ADVERTISE_ENABLE, EnableText(on), rep);
    }

    /** The send mode of `main` (bletool.c:274-278); `sleep(1)` only passes time. */
    method RunAdvertise(d: string, reps: seq<CommandReplies>) returns (status: Status)
      requires Valid() && IsHexString(d) && |d| <= MAX_ADV_HEX && |reps| == 4
      modifies radio
      ensures Valid()
      ensures Effect(radio.Snapshot(), status) == Advertise(old(radio.Snapshot()), d, reps)
    {
      AdvertiseInSteps(radio.Snapshot(), d, reps);
      status := Configure(32, 64, reps[0]);
      if status != Done {
        return;
      }
      status := SetAdvertisementData(d, reps[1]);
      if status != Done {
        return;
      }
      status := AdvertiseEnable(true, reps[2]);
      if status != Done {
        return;
      }
      status := AdvertiseEnable(false, reps[3]);
    }

    /**
     * `read_advertise(dd, data, datalen)` (bletool.c:122-145). When the
     * outcomes run out before one ends the retry loop, the `read` is still
     * waiting: the call reports `blocked`.
     */
    method ReadAdvertise(dd: int, data: array<byte>, datalen: nat) returns (ret: int, blocked: bool)
      requires Valid() && dd in radio.handles && data != recvbuf
      requires datalen <= data.Length && ADV_DATA_OFFSET + datalen <= HCI_MAX_EVENT_SIZE
      modifies radio, recvbuf, data
      ensures Valid()
      ensures blocked <==> !Terminates(old(radio.events))
      ensures blocked ==> (ret == 0 && recvbuf[..] == old(recvbuf[..]) && data[..] == old(data[..])
        && radio.Snapshot() == old(radio.Snapshot()).(events := []))
      ensures !blocked ==> var s := ReadAdv(old(recvbuf[..]), old(radio.events), datalen);
        && ret == s.ret && recvbuf[..] == s.recv
        && radio.Snapshot() == old(radio.Snapshot()).(events := s.rest)
        && data[..] == if s.payload.Some? then s.payload.value + old(data[datalen..]) else old(data[..])
    {
      ghost var recv0, inbox0, data0 := recvbuf[..], radio.events, data[..];
      while true
        invariant Valid() && dd in radio.handles
        invariant radio.Snapshot() == old(radio.Snapshot()).(events := radio.events)
        invariant recvbuf[..] == recv0 && data[..] == data0
        invariant Terminates(inbox0) <==> Terminates(radio.events)
        invariant Terminates(inbox0) ==> ReadAdv(recv0, inbox0, datalen) == ReadAdv(recv0, radio.events, datalen)
        decreases |radio.events|
      {
        if radio.events == [] {
          return 0, true;
        }
        ghost var pending := radio.events;
        var r := radio.Read(dd, recvbuf);
        if r.Failed? {
          if r.errno == EINTR && r.sigint {
            return 0, false;
          }
          FitsTail(pending, 1);
          if r.errno == EAGAIN || r.errno == EINTR {
            continue;
          }
        } else {
          var len := |r.bytes| - EVENT_PREFIX;
          forall k | 0 <= k < datalen {
            data[k] := recvbuf[ADV_DATA_OFFSET + k];
          }
          assert data[..] == recvbuf[..][ADV_DATA_OFFSET..ADV_DATA_OFFSET + datalen] + data0[datalen..];
          return len, false;
        }
      }
    }

    /**
     * One pass of the loop of `print_advertising_devices`: read a report
     * into `dat` and, unless the read returned 0, dump it.
     */
    method NextReport(dd: int, dat: array<byte>) returns (more: bool, blocked: bool)
      requires Valid() && dd in radio.handles && dat != recvbuf && dat.Length == ADV_DATA_LEN
      modifies this, radio, recvbuf, dat
      ensures Valid() && ofilter == old(ofilter)
      ensures blocked <==> !Terminates(old(radio.events))
      ensures blocked ==> (!more && recvbuf[..] == old(recvbuf[..]) && radio.Snapshot() == old(radio.Snapshot()).(events := [])
        && out == old(out))
      ensures !blocked ==> var s := ReadAdv(old(recvbuf[..]), old(radio.events), ADV_DATA_LEN);
        && recvbuf[..] == s.recv && radio.Snapshot() == old(radio.Snapshot()).(events := s.rest)
        && (more <==> s.ret != 0)
        && (more ==> s.payload.Some? && dat[..] == s.payload.value && out == old(out) + Dump(DUMP_PREFIX, DUMP_WIDTH, s.payload.value))
        && (!more ==> out == old(out))
    {
      var n, b := ReadAdvertise(dd, dat, ADV_DATA_LEN);
      if b {
        return false, true;
      }
      if n == 0 {
        return false, false;
      }
      ghost var s := ReadAdv(old(recvbuf[..]), old(radio.events), ADV_DATA_LEN);
      assert s.payload.Some?;
      assert dat[..] == s.payload.value by {
        assert old(dat[ADV_DATA_LEN..]) == [];
        assert s.payload.value + [] == s.payload.value;
      }
      var text := HexDumpText(DUMP_PREFIX, DUMP_WIDTH, dat[..]);
      out := out + text;
      more, blocked := true, false;
    }

    /** `print_advertising_devices(dd)` (bletool.c:147-161), without the SIGINT handler set-up. */
    method PrintAdvertisingDevices(dd: int) returns (blocked: bool)
      requires Valid() && dd in radio.handles
      modifies this, radio, recvbuf
      ensures Valid()
      ensures var l := Listen(old(recvbuf[..]), old(radio.events));
        && blocked == !l.stopped
        && recvbuf[..] == l.recv && radio.Snapshot() == old(radio.Snapshot()).(events := l.rest)
        && out == old(out) + Output(l.payloads) && ofilter == old(ofilter)
    {
      var dat := new byte[ADV_DATA_LEN];
      ghost var l0 := Listen(recvbuf[..], radio.events);
      ghost var done: seq<seq<byte>> := [];
      assert l0 == Resume(done, recvbuf[..], radio.events);
      while true
        invariant Valid() && dd in radio.handles
        invariant radio.Snapshot() == old(radio.Snapshot()).(events := radio.events)
        invariant ofilter == old(ofilter)
        invariant out == old(out) + Output(done)
        invariant l0 == Resume(done, recvbuf[..], radio.events)
        decreases |radio.events|
      {
        ghost var recv, pending, out0 := recvbuf[..], radio.events, out;
        var more, b := NextReport(dd, dat);
        if b {
          ResumeBlocked(done, recv, pending);
          return true;
        }
        ResumeStep(done, recv, pending);
        if !more {
          break;
        }
        Append3(old(out), Output(done), Dump(DUMP_PREFIX, DUMP_WIDTH, dat[..]));
        OutputSnoc(done, dat[..]);
        done := done + [dat[..]];
      }
      blocked := false;
    }

    /** `lescan_close(dd)` (bletool.c:164-178). */
    method LeScanClose(dd: int, rep: CloseReplies) returns (status: Status)
      requires Valid()
      modifies radio
      ensures Valid()
      ensures var r := Session.LeScanClose(old(Snapshot()), dd, rep);
        Snapshot() == r.world && status == r.status
    {
      var h := dd;
      if h == -1 {
        h := radio.Open(rep.open);
        if h < 0 {
          return Exit(1);
        }
      } else {
        // The result of restoring the filter is not checked.
        var restored := radio.SetSockOpt(h, ofilter, rep.restore);
      }
      var disabled := radio.EnableScan(h, false, false, rep.disable);
      if !disabled {
        return Exit(1);
      }
      radio.Close(h);
      status := Done;
    }

    /** `lescan_setup()` (bletool.c:180-226); on an exit `dd` is 0. */
    method LeScanSetup(rep: SetupReplies) returns (dd: int, status: Status)
      requires Valid()
      modifies this, radio
      ensures Valid()
      ensures var r := Session.LeScanSetup(old(Snapshot()), rep);
        Snapshot() == r.world && dd == r.ret && status == r.status
    {
      dd := radio.Open(rep.open);
      if dd < 0 {
        return 0, Exit(1);
      }
      var configured := radio.SetScanParameters(dd, SETUP_PARAMS, rep.params);
      if !configured {
        var closed := LeScanClose(-1, rep.reopen);
        return 0, Exit(1);
      }
      var enabled := radio.EnableScan(dd, true, false, rep.enable);
      if !enabled {
        radio.Close(dd);
        return 0, Exit(1);
      }
      var saved := radio.GetSockOpt(dd, rep.getopt);
      if saved.None? {
        radio.Close(dd);
        out := out + GETOPT_FAILED;
        return -1, Done;
      }
      ofilter := saved.value;
      var installed := radio.SetSockOpt(dd, LeMetaOnly, rep.setopt);
      if !installed {
        out := out + SETOPT_FAILED;
        return -1, Done;
      }
      status := Done;
    }

    /** The receive mode of `main` (bletool.c:269-272). */
    method RunScan(rep: SetupReplies, crep: CloseReplies) returns (status: Status)
      requires Valid()
      modifies this, radio, recvbuf
      ensures Valid()
      ensures var r := ScanSession(old(Snapshot()), rep, crep);
        Snapshot() == r.world && status == r.status
    {
      var dd;
      dd, status := LeScanSetup(rep);
      if status != Done {
        return;
      }
      if dd == -1 {
        // print_advertising_devices(-1) retries its failing read forever.
        return Hangs;
      }
      var blocked := PrintAdvertisingDevices(dd);
      if blocked {
        return Blocked;
      }
      status := LeScanClose(dd, crep);
    }
  }
}
