/**
 * The sequencing of `bletool.c` over the adapter: `ctrl_command`
 * (bletool.c:61-90), the send mode of `main` (bletool.c:274-278),
 * `lescan_setup` (bletool.c:180-226), `lescan_close` (bletool.c:164-178)
 * and the receive mode of `main` (bletool.c:269-272), as functions from
 * the state before a call and the answers of the system calls to the state
 * after it.
 */
module Session {
  import opened Bytes
  import opened Wrappers
  import opened Hex
  import opened Hci
  import opened Report
  import opened Radio
  import opened Receive

  /** The adapter, the global `ofilter`, the global `recvbuf` and what went to standard output. */
  datatype World = World(radio: RadioState, ofilter: Filter, recv: seq<byte>, out: string)

  predicate Coherent(w: World) {
    Good(w.radio) && |w.recv| == HCI_MAX_EVENT_SIZE
  }

  /**
   * How a call ends: it returned, the process called `exit(code)`, a `read`
   * is waiting for an event that has not arrived, or the receive loop spins
   * forever on the invalid handle -1.
   */
  datatype Status = Done | Exit(code: int) | Blocked | Hangs

  /** The state after a call, its return value and how it ended. */
  datatype Run = Run(world: World, ret: int, status: Status)

  const EXIT_FAILURE: int := 1

  // ---- ctrl_command (bletool.c:61-90) ----

  /** Answers to `hci_open_dev`, `setsockopt` and `hci_send_cmd`. */
  datatype CommandReplies = CommandReplies(open: bool, filter: bool, send: bool)

  predicate AllOk(rep: CommandReplies) {
    rep.open && rep.filter && rep.send
  }

  /** The commands that reached the controller, in order. */
  function Commands(log: seq<Request>): seq<Command> {
    if log == [] then []
    else Commands(log[..|log| - 1]) + if log[|log| - 1].Sent? then [log[|log| - 1].cmd] else []
  }

  lemma CommandsSnoc(log: seq<Request>, r: Request)
    ensures Commands(log + [r]) == Commands(log) + if r.Sent? then [r.cmd] else []
  {
    assert (log + [r])[..|log|] == log;
  }

  /** The adapter after a call that touches nothing else, and how the call ended. */
  datatype Effect = Effect(radio: RadioState, status: Status)

  /**
   * Open a handle, decode `data`, install the all-events filter, send the
   * command and close the handle; any failure exits with status 1.
   */
  function CtrlCommand(r: RadioState, ogf: byte, ocf: u16, data: string, rep: CommandReplies): (e: Effect)
    requires Good(r) && IsHexString(data) && |data| / 2 <= HCI_MAX_EVENT_SIZE
    ensures Good(e.radio)
    ensures e.status == Done || e.status == Exit(1)
    ensures e.radio.handles == r.handles
  {
    var (r1, dd) := OpenDev(r, rep.open);
    if dd < 0 then Effect(r, Exit(1))
    else
      var (r2, filtered) := SetFilter(r1, dd, AllEvents, rep.filter);
      if !filtered then Effect(CloseDev(r2, dd), Exit(EXIT_FAILURE))
      else
        var (r3, sent) := SendCmd(r2, dd, TextCommand(ogf, ocf, data), rep.send);
        Effect(CloseDev(r3, dd), if sent then Done else Exit(EXIT_FAILURE))
  }

  /**
   * From `r` to `v` exactly the commands `sent` reached the controller, no
   * handle was left open, and nothing else changed but the log and the next
   * handle number.
   */
  predicate Sends(r: RadioState, v: RadioState, sent: seq<Command>) {
    && Commands(v.log) == Commands(r.log) + sent
    && v.handles == r.handles
    && v.(log := r.log, next := r.next) == r
  }

  lemma SendsThen(u: RadioState, v: RadioState, w: RadioState, a: seq<Command>, b: seq<Command>)
    requires Sends(u, v, a) && Sends(v, w, b)
    ensures Sends(u, w, a + b)
  {
  }

  /**
   * One `ctrl_command` sends its command exactly when every call succeeds,
   * exits with status 1 otherwise, closes the handle it opened on every path,
   * and touches no other part of the state.
   */
  lemma CtrlCommandEffect(r: RadioState, ogf: byte, ocf: u16, data: string, rep: CommandReplies)
    requires Good(r) && IsHexString(data) && |data| / 2 <= HCI_MAX_EVENT_SIZE
    ensures var e := CtrlCommand(r, ogf, ocf, data, rep);
      && e.status == (if AllOk(rep) then Done else Exit(1))
      && Sends(r, e.radio, if AllOk(rep) then [TextCommand(ogf, ocf, data)] else [])
      && e.radio.log == r.log
        + (if rep.open && rep.filter then [FilterSet(r.next, AllEvents)] else [])
        + (if AllOk(rep) then [Sent(TextCommand(ogf, ocf, data))] else [])
  {
    var dd := r.next;
    if rep.open {
      assert r.handles[dd := SocketDefault][dd := AllEvents] - {dd} == r.handles;
      assert r.handles[dd := SocketDefault] - {dd} == r.handles;
      CommandsSnoc(r.log, FilterSet(dd, AllEvents));
      if rep.filter {
        CommandsSnoc(r.log + [FilterSet(dd, AllEvents)], Sent(TextCommand(ogf, ocf, data)));
      }
    }
  }

  // ---- The send mode of main (bletool.c:274-278) ----

  /** A `ctrl_command` call: the group, the command and the hex text of its parameters. */
  datatype TextCmd = TextCmd(ogf: byte, ocf: u16, data: string)

  /** Text `ctrl_command` can decode: hex digits that fit its buffer. */
  predicate Decodable(c: TextCmd) {
    IsHexString(c.data) && |c.data| / 2 <= HCI_MAX_EVENT_SIZE
  }

  predicate Sendable(cmds: seq<TextCmd>) {
    cmds == [] || (Decodable(cmds[0]) && Sendable(cmds[1..]))
  }

  /** The packets the calls hand to `hci_send_cmd`. */
  function Packets(cmds: seq<TextCmd>): (ps: seq<Command>)
    requires Sendable(cmds)
    ensures |ps| == |cmds|
  {
    if cmds == [] then [] else [TextCommand(cmds[0].ogf, cmds[0].ocf, cmds[0].data)] + Packets(cmds[1..])
  }

  /** How many calls in a row, from the first, see every system call succeed. */
  function Succeeding(reps: seq<CommandReplies>): (k: nat)
    ensures k <= |reps|
  {
    if reps == [] || !AllOk(reps[0]) then 0 else 1 + Succeeding(reps[1..])
  }

  /** `ctrl_command` calls one after the other, until one of them exits. */
  function RunCommands(r: RadioState, cmds: seq<TextCmd>, reps: seq<CommandReplies>): (e: Effect)
    requires Good(r) && Sendable(cmds) && |reps| == |cmds|
    ensures Good(e.radio)
    ensures e.status == Done || e.status == Exit(1)
    ensures e.radio.handles == r.handles
    decreases |cmds|
  {
    if cmds == [] then Effect(r, Done)
    else
      var e := CtrlCommand(r, cmds[0].ogf, cmds[0].ocf, cmds[0].data, reps[0]);
      if e.status != Done then e else RunCommands(e.radio, cmds[1..], reps[1..])
  }

  /** The first call of a run, and what the run does after it. */
  lemma RunFirst(r: RadioState, cmds: seq<TextCmd>, reps: seq<CommandReplies>)
    requires Good(r) && Sendable(cmds) && |reps| == |cmds| && cmds != []
    ensures var e := CtrlCommand(r, cmds[0].ogf, cmds[0].ocf, cmds[0].data, reps[0]);
      RunCommands(r, cmds, reps) == if e.status != Done then e else RunCommands(e.radio, cmds[1..], reps[1..])
  {
  }

  /**
   * The calls send exactly the commands before the first one that fails, in
   * order; the run exits with status 1 if one fails, and no handle is left open.
   */
  lemma {:induction false} RunCommandsEffect(r: RadioState, cmds: seq<TextCmd>, reps: seq<CommandReplies>)
    requires Good(r) && Sendable(cmds) && |reps| == |cmds|
    ensures var e, k := RunCommands(r, cmds, reps), Succeeding(reps);
      && e.status == (if k == |cmds| then Done else Exit(1))
      && Sends(r, e.radio, Packets(cmds)[..k])
    decreases |cmds|
  {
    if cmds != [] {
      var c := cmds[0];
      CtrlCommandEffect(r, c.ogf, c.ocf, c.data, reps[0]);
      var e := CtrlCommand(r, c.ogf, c.ocf, c.data, reps[0]);
      if AllOk(reps[0]) {
        RunCommandsEffect(e.radio, cmds[1..], reps[1..]);
        PacketsCons(cmds, Succeeding(reps[1..]));
        SendsThen(r, e.radio, RunCommands(e.radio, cmds[1..], reps[1..]).radio, [Packets(cmds)[0]], Packets(cmds[1..])[..Succeeding(reps[1..])]);
      }
    }
  }

  lemma PacketsCons(cmds: seq<TextCmd>, k: nat)
    requires Sendable(cmds) && 0 < |cmds| && k < |cmds|
    ensures Packets(cmds)[..k + 1] == [Packets(cmds)[0]] + Packets(cmds[1..])[..k]
  {
  }

  lemma SendableCons(c: TextCmd, rest: seq<TextCmd>)
    requires Decodable(c) && Sendable(rest)
    ensures Sendable([c] + rest) && Packets([c] + rest) == [TextCommand(c.ogf, c.ocf, c.data)] + Packets(rest)
  {
    assert ([c] + rest)[1..] == rest;
  }

  /** Four decodable calls in a row, and the packets they send. */
  lemma FourCalls(a: TextCmd, b: TextCmd, c: TextCmd, e: TextCmd)
    requires Decodable(a) && Decodable(b) && Decodable(c) && Decodable(e)
    ensures Sendable([a, b, c, e])
    ensures Packets([a, b, c, e]) ==
      [TextCommand(a.ogf, a.ocf, a.data), TextCommand(b.ogf, b.ocf, b.data), TextCommand(c.ogf, c.ocf, c.data), TextCommand(e.ogf, e.ocf, e.data)]
  {
    SendableCons(e, []);
    assert [e] + [] == [e];
    SendableCons(c, [e]);
    assert [c] + [e] == [c, e];
    SendableCons(b, [c, e]);
    assert [b] + [c, e] == [b, c, e];
    SendableCons(a, [b, c, e]);
    assert [a] + [b, c, e] == [a, b, c, e];
  }

  /** The four calls of the send mode, for caller text `d`. */
  function AdvertiseTexts(d: string): (cmds: seq<TextCmd>)
    requires IsHexString(d) && |d| <= MAX_ADV_HEX
    ensures Sendable(cmds) && |cmds| == 4
  {
    var params := TextCmd(OGF_LE_CTL, OCF_LE_SET_ADVERTISING_PARAMETERS, ConfigureText(32, 64));
    var data := TextCmd(OGF_LE_CTL, OCF_LE_SET_ADVERTISING_DATA, AdvText(d));
    var on := TextCmd(OGF_LE_CTL, OCF_LE_SET_ADVERTISE_ENABLE, EnableText(true));
    var off := TextCmd(OGF_LE_CTL, OCF_LE_SET_ADVERTISE_ENABLE, EnableText(false));
    FourCalls(params, data, on, off);
    [params, data, on, off]
  }

  /** `configure(32, 64)`, `set_advertisement_data(d)`, `advertise_on()`, `advertise_off()`. */
  function Advertise(r: RadioState, d: string, reps: seq<CommandReplies>): (e: Effect)
    requires Good(r) && IsHexString(d) && |d| <= MAX_ADV_HEX && |reps| == 4
    ensures Good(e.radio)
    ensures e.status == Done || e.status == Exit(1)
    ensures e.radio.handles == r.handles
  {
    RunCommands(r, AdvertiseTexts(d), reps)
  }

  /** Four calls in a row, one by one. */
  lemma RunFour(r: RadioState, a: TextCmd, b: TextCmd, c: TextCmd, f: TextCmd, reps: seq<CommandReplies>)
    requires Good(r) && Decodable(a) && Decodable(b) && Decodable(c) && Decodable(f) && |reps| == 4
    ensures Sendable([a, b, c, f])
    ensures var e0 := CtrlCommand(r, a.ogf, a.ocf, a.data, reps[0]);
      var e1 := CtrlCommand(e0.radio, b.ogf, b.ocf, b.data, reps[1]);
      var e2 := CtrlCommand(e1.radio, c.ogf, c.ocf, c.data, reps[2]);
      var e3 := CtrlCommand(e2.radio, f.ogf, f.ocf, f.data, reps[3]);
      RunCommands(r, [a, b, c, f], reps) ==
        if e0.status != Done then e0 else if e1.status != Done then e1 else if e2.status != Done then e2 else e3
  {
    FourCalls(a, b, c, f);
    assert [a, b, c, f][1..] == [b, c, f] && [b, c, f][1..] == [c, f] && [c, f][1..] == [f] && [f][1..] == [];
    assert reps[1..][1..] == reps[2..] && reps[2..][1..] == reps[3..] && reps[3..][1..] == [];
    RunFirst(r, [a, b, c, f], reps);
    var e0 := CtrlCommand(r, a.ogf, a.ocf, a.data, reps[0]);
    if e0.status == Done {
      RunFirst(e0.radio, [b, c, f], reps[1..]);
      var e1 := CtrlCommand(e0.radio, b.ogf, b.ocf, b.data, reps[1]);
      if e1.status == Done {
        RunFirst(e1.radio, [c, f], reps[2..]);
        var e2 := CtrlCommand(e1.radio, c.ogf, c.ocf, c.data, reps[2]);
        if e2.status == Done {
          RunFirst(e2.radio, [f], reps[3..]);
        }
      }
    }
  }

  /** The send mode call by call, as `main` writes it out. */
  lemma AdvertiseInSteps(r: RadioState, d: string, reps: seq<CommandReplies>)
    requires Good(r) && IsHexString(d) && |d| <= MAX_ADV_HEX && |reps| == 4
    ensures var e0 := CtrlCommand(r, OGF_LE_CTL, OCF_LE_SET_ADVERTISING_PARAMETERS, ConfigureText(32, 64), reps[0]);
      var e1 := CtrlCommand(e0.radio, OGF_LE_CTL, OCF_LE_SET_ADVERTISING_DATA, AdvText(d), reps[1]);
      var e2 := CtrlCommand(e1.radio, OGF_LE_CTL, OCF_LE_SET_ADVERTISE_ENABLE, EnableText(true), reps[2]);
      var e3 := CtrlCommand(e2.radio, OGF_LE_CTL, OCF_LE_SET_ADVERTISE_ENABLE, EnableText(false), reps[3]);
      Advertise(r, d, reps) ==
        if e0.status != Done then e0 else if e1.status != Done then e1 else if e2.status != Done then e2 else e3
  {
    var ts := AdvertiseTexts(d);
    RunFour(r, ts[0], ts[1], ts[2], ts[3], reps);
    assert ts == [ts[0], ts[1], ts[2], ts[3]];
  }

  /** The send mode's commands: advertising parameters, data, enable on, enable off, all in group 0x08. */
  lemma AdvertisePackets(d: string)
    requires IsHexString(d) && |d| <= MAX_ADV_HEX
    ensures Packets(AdvertiseTexts(d)) ==
      [ConfigureCommand(32, 64), AdvDataCommand(d), AdvertiseEnableCommand(true), AdvertiseEnableCommand(false)]
    ensures forall i :: 0 <= i < 4 ==> Packets(AdvertiseTexts(d))[i].ogf == OGF_LE_CTL
    ensures Packets(AdvertiseTexts(d))[2].ocf == Packets(AdvertiseTexts(d))[3].ocf == 0x000A
  {
    var ts := AdvertiseTexts(d);
    FourCalls(ts[0], ts[1], ts[2], ts[3]);
    assert ts == [ts[0], ts[1], ts[2], ts[3]];
  }

  /**
   * When every call succeeds the send mode issues exactly those four
   * commands in that order; when one fails it issues exactly the ones before
   * it and exits with status 1.
   */
  lemma AdvertiseSequence(r: RadioState, d: string, reps: seq<CommandReplies>)
    requires Good(r) && IsHexString(d) && |d| <= MAX_ADV_HEX && |reps| == 4
    ensures var e, k := Advertise(r, d, reps), Succeeding(reps);
      var all := [ConfigureCommand(32, 64), AdvDataCommand(d), AdvertiseEnableCommand(true), AdvertiseEnableCommand(false)];
      && e.status == (if k == 4 then Done else Exit(1))
      && Sends(r, e.radio, all[..k])
  {
    RunCommandsEffect(r, AdvertiseTexts(d), reps);
    AdvertisePackets(d);
  }

  // ---- lescan_close (bletool.c:164-178) ----

  /** Answers to `open_device` (used only for the handle -1), `setsockopt` and the disable request. */
  datatype CloseReplies = CloseReplies(open: bool, restore: bool, disable: bool)

  /** Disable scanning on `dd` and close it; a failed disable exits without closing. */
  function Disable(w: World, dd: int, ok: bool): (r: Run)
    requires Coherent(w)
    ensures Coherent(r.world)
    ensures r.ret == 0 && r.world.(radio := w.radio) == w
    ensures r.status == (if ok && dd in w.radio.handles then Done else Exit(1))
    ensures r.status == Done ==> !r.world.radio.scanning && r.world.radio.handles == w.radio.handles - {dd}
  {
    var (r1, disabled) := SetScanEnable(w.radio, dd, false, false, ok);
    if !disabled then Run(w.(radio := r1), 0, Exit(1))
    else Run(w.(radio := CloseDev(r1, dd)), 0, Done)
  }

  /**
   * For the handle -1, open a new handle; otherwise put `ofilter` back on
   * `dd`, ignoring whether that worked. Then disable the scan and close.
   */
  function LeScanClose(w: World, dd: int, rep: CloseReplies): (r: Run)
    requires Coherent(w)
    ensures Coherent(r.world)
    ensures r.ret == 0 && (r.status == Done || r.status == Exit(1))
    ensures r.world.ofilter == w.ofilter && r.world.recv == w.recv && r.world.out == w.out
    ensures r.status == Done ==> !r.world.radio.scanning
    ensures r.status == Done ==> r.world.radio.handles == w.radio.handles - {dd}
  {
    if dd == -1 then
      var (r1, h) := OpenDev(w.radio, rep.open);
      if h < 0 then Run(w, 0, Exit(1)) else Disable(w.(radio := r1), h, rep.disable)
    else
      var (r1, _) := SetFilter(w.radio, dd, w.ofilter, rep.restore);
      assert r1.handles - {dd} == w.radio.handles - {dd};
      Disable(w.(radio := r1), dd, rep.disable)
  }

  /** On an open handle the saved filter goes back before the scan is disabled, then the handle is closed. */
  lemma CloseRestores(w: World, dd: int, rep: CloseReplies)
    requires Coherent(w) && dd in w.radio.handles && dd != -1 && rep.restore && rep.disable
    ensures var r := LeScanClose(w, dd, rep);
      && r.status == Done
      && r.world.radio.log == w.radio.log + [FilterSet(dd, w.ofilter), ScanEnable(false, false)]
      && r.world.radio.handles == w.radio.handles - {dd}
      && !r.world.radio.scanning
  {
    assert w.radio.handles[dd := w.ofilter] - {dd} == w.radio.handles - {dd};
  }

  /** A failed restore is ignored: the scan is still disabled and the handle closed. */
  lemma CloseIgnoresRestore(w: World, dd: int, rep: CloseReplies)
    requires Coherent(w) && dd in w.radio.handles && dd != -1 && !rep.restore && rep.disable
    ensures var r := LeScanClose(w, dd, rep);
      && r.status == Done
      && r.world.radio.log == w.radio.log + [ScanEnable(false, false)]
      && r.world.radio.handles == w.radio.handles - {dd}
      && !r.world.radio.scanning
  {
  }

  /** A failed disable exits with status 1 and leaves the handle open. */
  lemma CloseDisableFails(w: World, dd: int, rep: CloseReplies)
    requires Coherent(w) && dd in w.radio.handles && dd != -1 && !rep.disable
    ensures var r := LeScanClose(w, dd, rep);
      r.status == Exit(1) && dd in r.world.radio.handles && r.world.radio.scanning == w.radio.scanning
  {
  }

  // ---- lescan_setup (bletool.c:180-226) ----

  /**
   * Answers to `open_device`, the scan-parameters request, the enable
   * request, `getsockopt`, `setsockopt`, and those of the `lescan_close(-1)`
   * that follows a failed parameters request.
   */
  datatype SetupReplies = SetupReplies(open: bool, params: bool, enable: bool, getopt: bool, setopt: bool, reopen: CloseReplies)

  const GETOPT_FAILED: string := "Could not get socket options\n"
  const SETOPT_FAILED: string := "Could not set socket options\n"

  /**
   * Set the scan parameters, enable the scan, save the handle's filter in
   * `ofilter` and install the LE Meta filter; return the handle, or -1 when
   * a socket option call fails.
   */
  function LeScanSetup(w: World, rep: SetupReplies): (r: Run)
    requires Coherent(w)
    ensures Coherent(r.world)
    ensures r.status == Done && r.ret != -1 ==> r.ret in r.world.radio.handles
    ensures r.status == Done ==> r.world.radio.scanning
    ensures r.status == Done || r.status == Exit(1)
  {
    var (r1, dd) := OpenDev(w.radio, rep.open);
    if dd < 0 then Run(w, 0, Exit(1))
    else
      var (r2, configured) := SetScanParams(r1, dd, SETUP_PARAMS, rep.params);
      if !configured then
        var c := LeScanClose(w.(radio := r2), -1, rep.reopen);
        Run(c.world, 0, Exit(1))
      else
        var (r3, enabled) := SetScanEnable(r2, dd, true, false, rep.enable);
        if !enabled then Run(w.(radio := CloseDev(r3, dd)), 0, Exit(1))
        else
          var saved := GetFilter(r3, dd, rep.getopt);
          if saved.None? then Run(w.(radio := CloseDev(r3, dd), out := w.out + GETOPT_FAILED), -1, Done)
          else
            var (r4, installed) := SetFilter(r3, dd, LeMetaOnly, rep.setopt);
            if !installed then Run(w.(radio := r4, ofilter := saved.value, out := w.out + SETOPT_FAILED), -1, Done)
            else Run(w.(radio := r4, ofilter := saved.value), dd, Done)
  }

  predicate SetupOk(rep: SetupReplies) {
    rep.open && rep.params && rep.enable && rep.getopt && rep.setopt
  }

  /**
   * `lescan_setup` exits exactly when opening, the parameters or the enable
   * request fail, and otherwise returns -1 exactly when a socket option call
   * fails.
   */
  lemma SetupOutcome(w: World, rep: SetupReplies)
    requires Coherent(w)
    ensures var r := LeScanSetup(w, rep);
      && (r.status == Exit(1) <==> !(rep.open && rep.params && rep.enable))
      && (r.status == Exit(1) || r.status == Done)
      && (r.status == Done ==> (r.ret == -1 <==> !(rep.getopt && rep.setopt)))
  {
    if rep.open && !rep.params {
      var r1 := OpenDev(w.radio, true).0;
      var c := LeScanClose(w.(radio := r1), -1, rep.reopen);
    }
  }

  /**
   * On success: a fresh handle, the parameters (passive, 0x0010, 0x0010,
   * 0, 0) then the enable request (on, no duplicate filtering), the handle's
   * own filter saved in `ofilter` before the LE Meta filter replaces it.
   */
  lemma SetupSuccess(w: World, rep: SetupReplies)
    requires Coherent(w) && SetupOk(rep)
    ensures var r := LeScanSetup(w, rep);
      && r.status == Done && r.ret == w.radio.next && r.ret !in w.radio.handles
      && r.world.radio.log == w.radio.log + [ScanParameters(SETUP_PARAMS), ScanEnable(true, false), FilterSet(r.ret, LeMetaOnly)]
      && r.world.radio.handles == w.radio.handles[r.ret := LeMetaOnly]
      && r.world.ofilter == SocketDefault
      && r.world.radio.scanning && r.world.radio.params == Some(SETUP_PARAMS)
      && r.world.out == w.out && r.world.recv == w.recv && r.world.radio.events == w.radio.events
  {
  }

  /**
   * A failed parameters request leaks the handle: `lescan_close(-1)` opens
   * a second handle, disables the scan on it and closes it, and the process
   * exits with the first handle still open.
   */
  lemma ParamsFailureLeaks(w: World, rep: SetupReplies)
    requires Coherent(w) && rep.open && !rep.params && rep.reopen.open && rep.reopen.disable
    ensures var r, dd := LeScanSetup(w, rep), w.radio.next;
      && r.status == Exit(1)
      && dd !in w.radio.handles && r.world.radio.handles == w.radio.handles[dd := SocketDefault]
      && r.world.radio.log == w.radio.log + [ScanEnable(false, false)]
  {
    var dd := w.radio.next;
    assert w.radio.handles[dd := SocketDefault][dd + 1 := SocketDefault] - {dd + 1} == w.radio.handles[dd := SocketDefault];
  }

  // ---- The receive mode of main (bletool.c:269-272) ----

  /** `lescan_setup`, `print_advertising_devices` on its handle, then `lescan_close`. */
  function ScanSession(w: World, rep: SetupReplies, crep: CloseReplies): (r: Run)
    requires Coherent(w)
    ensures Coherent(r.world)
    ensures r.status == Done ==> !r.world.radio.scanning
    ensures r.status == Hangs || r.status == Blocked ==> r.world.radio.scanning
    ensures r.status.Exit? ==> r.status.code == 1
  {
    var s := LeScanSetup(w, rep);
    if s.status != Done then s
    else if s.ret == -1 then Run(s.world, 0, Hangs)
    else
      var w1 := s.world;
      var l := Listen(w1.recv, w1.radio.events);
      var w2 := w1.(radio := w1.radio.(events := l.rest), recv := l.recv, out := w1.out + Output(l.payloads));
      if !l.stopped then Run(w2, 0, Blocked) else LeScanClose(w2, s.ret, crep)
  }

  /**
   * A session where every call succeeds and the loop is stopped: the
   * requests are parameters, enable, LE Meta filter, the saved filter put
   * back, disable; the filter restored is the one the handle had before; the
   * handle is closed; the output is one dump per report read.
   */
  lemma ScanSessionComplete(w: World, rep: SetupReplies, crep: CloseReplies)
    requires Coherent(w) && SetupOk(rep) && crep.restore && crep.disable
    requires Listen(w.recv, w.radio.events).stopped
    ensures var r, dd, l := ScanSession(w, rep, crep), w.radio.next, Listen(w.recv, w.radio.events);
      && r.status == Done
      && r.world.radio.log == w.radio.log +
        [ScanParameters(SETUP_PARAMS), ScanEnable(true, false), FilterSet(dd, LeMetaOnly), FilterSet(dd, SocketDefault), ScanEnable(false, false)]
      && r.world.radio.handles == w.radio.handles
      && !r.world.radio.scanning
      && r.world.out == w.out + Output(l.payloads)
      && r.world.radio.events == l.rest
  {
    SetupSuccess(w, rep);
    var s := LeScanSetup(w, rep);
    var dd := s.ret;
    var l := Listen(w.recv, w.radio.events);
    var w2 := s.world.(radio := s.world.radio.(events := l.rest), recv := l.recv, out := s.world.out + Output(l.payloads));
    CloseRestores(w2, dd, crep);
    assert w.radio.handles[dd := LeMetaOnly] - {dd} == w.radio.handles;
  }

  /**
   * When `getsockopt` fails the handle is closed but the scan is never
   * disabled, and the receive loop then spins on the handle -1.
   */
  lemma GetoptFailureHangs(w: World, rep: SetupReplies, crep: CloseReplies)
    requires Coherent(w) && rep.open && rep.params && rep.enable && !rep.getopt
    ensures var r := ScanSession(w, rep, crep);
      && r.status == Hangs && r.world.radio.scanning
      && r.world.radio.handles == w.radio.handles
      && r.world.out == w.out + GETOPT_FAILED
  {
    assert w.radio.handles[w.radio.next := SocketDefault] - {w.radio.next} == w.radio.handles;
  }

  /**
   * When `setsockopt` fails `lescan_setup` returns -1 without closing: the
   * handle stays open with its own filter and the scan stays enabled while
   * the receive loop spins on the handle -1.
   */
  lemma SetoptFailureLeaks(w: World, rep: SetupReplies, crep: CloseReplies)
    requires Coherent(w) && rep.open && rep.params && rep.enable && rep.getopt && !rep.setopt
    ensures var r, dd := ScanSession(w, rep, crep), w.radio.next;
      && r.status == Hangs && r.world.radio.scanning
      && dd !in w.radio.handles && r.world.radio.handles == w.radio.handles[dd := SocketDefault]
      && r.world.ofilter == SocketDefault
      && r.world.out == w.out + SETOPT_FAILED
  {
  }
}
