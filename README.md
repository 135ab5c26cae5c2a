# bletool in Dafny

`bletool.c` is a small Linux tool that drives a Bluetooth Low Energy adapter through BlueZ's HCI socket interface. It has two modes:

- **Send mode** (`-s HEX`) advertises. It sends four LE controller commands, each through `ctrl_command`, which opens a handle, decodes the command's hex text, installs a broad event filter, sends and closes:
  1. LE Set Advertising Parameters (`configure(32, 64)`);
  2. LE Set Advertising Data (a fixed 13-byte header, the caller's hex and zero padding);
  3. LE Set Advertising Enable on;
  4. LE Set Advertising Enable off, one second later.
- **Receive mode** (`-r`, the default) scans. `lescan_setup` does the following:
  - opens a handle;
  - sets passive scan parameters;
  - enables the scan;
  - saves the handle's filter in the global `ofilter`;
  - installs an LE Meta event filter.

  `print_advertising_devices` then reads events into the global `recvbuf` until a read returns 0 (Ctrl-C, or an event with no parameters). It copies the 31 bytes at offset 14 of each event and prints them with `hex_dump`. `lescan_close` then puts the saved filter back, disables the scan and closes the handle.

The model has three layers:

- **Values.** These are the byte layouts of the commands and the decoding of their hex text (`Hex`, `Hci`), the read outcomes and what `read_advertise` makes of them (`Report`), and the printed layout (`HexDump`, `Receive`).
- **State as a function.** The adapter is the state (`Radio`). Each procedure of the C file is a function from the state before it, and the answers of the system calls, to the state after it and how it ended (`Session`): returned, `exit(1)`, blocked in `read`, or spinning forever.
- **The imperative program.** `BleTool.Tool` holds the globals `ofilter` and `recvbuf`, standard output and an `Adapter` object. Its methods follow the C procedures statement by statement: the retry loop, the copy loop, the padding loop, the `hex_dump` counters and the receive loop. Each method is proved to compute what the matching function states.

Success or failure of `hci_open_dev`, `setsockopt`, `getsockopt`, `hci_send_cmd` and the scan requests is a parameter of each operation. The events `read` delivers, including interrupted and failed reads, are a sequence consumed from the front.

## Model

| member | source | states |
|---|---|---|
| Hex.HexToBytes | bletool.c:67-72 | The decoding loop yields exactly ⌊\|data\|/2⌋ bytes. Byte i is 16·digit(data[2i]) + digit(data[2i+1]). |
| Hex.DropsOddNibble | bletool.c:67 | An odd trailing digit is dropped: the text decodes as if it were not there. |
| Hex.DecodeEncode | bletool.c:67-72 | Decoding undoes `%02X` encoding: every byte sequence comes back from its hex text. |
| Hci.TextCommand | bletool.c:66-84 | The packet keeps the group and command. Its parameters are the decoded bytes cut to their count mod 256, because `hci_send_cmd` takes the length as one byte; texts of fewer than 512 digits go out whole. |
| Hci.SendEncoded | bletool.c:66-84 | Every sequence of at most 255 bytes, given as its `%02X` text, goes out unchanged. |
| Hci.ConfigurePayload | bletool.c:95 | The `%04X%04X…0700` text of the swapped intervals decodes to lo(min), hi(min), lo(max), hi(max), nine zero bytes, 07, 00. |
| Hci.ConfigureCommand | bletool.c:92-97 | `configure` sends OGF 0x08, OCF 0x0006 with that 15-byte payload. |
| Hci.ConfigureDefault | bletool.c:274 | `configure(32, 64)` sends 20 00 40 00, nine zeros, 07 00. |
| Hci.AdvertiseEnableCommand | bletool.c:99-107 | `advertise_on` / `advertise_off` send OGF 0x08, OCF 0x000A with the single byte 01 / 00. |
| Hci.BuildAdvText | bletool.c:112-116 | The `sprintf` and padding loop give the header, the caller text, then '0' up to 64 characters. |
| Hci.HeaderBytes | bletool.c:19 | DEFAULT_ADV_HEADER decodes to 1F 02 01 06 03 03 AA FE 17 16 AA FE 80. |
| Hci.AdvDataFrame | bletool.c:109-118 | The frame is 32 bytes. It holds the 13 header bytes, then the caller's bytes, then an odd last digit as the high half of one more byte, then zeros. |
| Hci.AdvDataCommand | bletool.c:109-118 | `set_advertisement_data` sends OGF 0x08, OCF 0x0008 with the 32 bytes that the padded 64-digit text decodes to. |
| Hci.AdChain | bletool.c:19 | The AD lengths 02, 03, 0x17 chain into exactly three structures filling the 31 bytes announced by 0x1F. |
| Hci.HeaderChain | bletool.c:19 | The same chain holds for any 32 bytes that start with the header bytes. |
| Report.FirstReturn | bletool.c:129-136 | The index of the first outcome that ends the retry loop. No earlier outcome ends it. |
| Report.Outcome | bletool.c:138-144 | What the retry loop's last outcome leaves. A frame overwrites the front of `recvbuf` and leaves the rest as it was; the call returns the frame length minus 3 and copies `datalen` bytes from offset 14. An interrupt returns 0, copies nothing and leaves `recvbuf` alone. |
| Report.ReadAdv | bletool.c:122-145 | What is left unread is a proper suffix of the outcomes. Any copy is `datalen` bytes. A call that copies nothing returns 0 and leaves `recvbuf` alone. |
| Report.ReadAdvFirst | bletool.c:129-136 | Every failed read before the first frame or interrupt is retried and leaves no trace. |
| Report.ReadAdvZero | bletool.c:129-144 | `read_advertise` returns 0 exactly on EINTR with SIGINT received, or on a 3-byte frame. |
| Report.ReadAdvBytes | bletool.c:138-144 | It returns the frame length minus 3. It copies frame bytes 14.. as far as the frame reaches, and stale `recvbuf` bytes beyond that. |
| Report.ReadAdvIgnoresLater | bletool.c:129-136 | Outcomes after the one that ends the loop are not read. |
| Report.ReadAdvDecodes | bletool.c:138-143 | On every frame a length-checking decoder accepts, it copies exactly frame[14..45). |
| Report.ShortFrameIsStale | bletool.c:138-143 | On a frame of at most 14 bytes, which the checking decoder rejects, it copies the previous contents of `recvbuf`. |
| Report.ReportFrameDecodes | bletool.c:138-144 | On an LE Advertising Report it returns the parameter-length byte. It copies the data and what follows it, ignoring the data-length byte. |
| HexDump.ByteTextDigits | bletool.c:37 | Each byte is printed as two uppercase hex digits that read back as the byte, then a space. |
| HexDump.CounterShape | bletool.c:34-41 | The counter `n` is the position in the open line. The open line starts after whole lines of `width` bytes. |
| HexDump.FinalLine | bletool.c:43-44 | The loop's output, plus the closing newline iff `i && n != 1`, is the intended layout: lines of `width` bytes, each opened by `pref` and closed by a newline. |
| HexDump.HexDumpText | bletool.c:30-45 | The counter loop prints exactly that layout. |
| HexDump.DumpLength | bletool.c:30-45 | An empty buffer prints nothing. Otherwise the output is 3 characters per byte, plus `pref` and a newline per started line. |
| Receive.Listen | bletool.c:156-159 | The loop's reads: each dumped payload is 31 bytes, and what is left unread fits `recvbuf`. |
| Receive.ResumeStep | bletool.c:156-159 | One pass either stops at a 0 return or dumps one payload and goes on. |
| Receive.ListenIgnoresLater | bletool.c:157 | After the first 0 return nothing more is read or printed. |
| Receive.ListenReports | bletool.c:156-159 | Given well-formed reports, then Ctrl-C: one payload per report, frame[14..45), in read order, with nothing left unread. |
| Receive.DumpOneLine | bletool.c:158 | One payload prints as one 96-character line: "  ", 31 byte texts, a newline. |
| Receive.OutputLength | bletool.c:156-159 | The loop prints 96 characters per payload. |
| Radio.OpenDev | bletool.c:53-57 | A successful open hands out a fresh handle with the socket's default filter. |
| Radio.Adapter.Read | bletool.c:129 | `read` consumes one outcome. A frame overwrites only the front of the buffer. |
| Session.CtrlCommand | bletool.c:61-90 | `ctrl_command` returns or exits with status 1, and the open handles end as they began. What it logs and sends is stated by `Session.CtrlCommandEffect`. |
| Session.CtrlCommandEffect | bletool.c:61-90 | The command, as `Hci.TextCommand` builds it, is sent exactly when open, filter and send succeed; otherwise the call exits with status 1. The log gains exactly the all-events filter on the fresh handle when open and filter succeed, then the command when everything succeeds. The handle is closed on every path, and only the log and the next handle number change. |
| Session.RunCommandsEffect | bletool.c:274-278 | Successive calls send exactly the commands before the first failure, in order, then exit with status 1. |
| Session.AdvertiseInSteps | bletool.c:274-278 | The send mode is `configure(32, 64)`, `set_advertisement_data(d)`, `advertise_on()`, `advertise_off()`, each run only if the previous returned. |
| Session.Advertise | bletool.c:274-278 | The send mode returns or exits with status 1 and leaves no handle open. The commands it sends are stated by `Session.AdvertiseSequence`. |
| Session.AdvertisePackets | bletool.c:274-278 | In order, the four packets are the parameters, the data frame, enable 01 and enable 00. All are OGF 0x08, and both enables are OCF 0x000A. |
| Session.AdvertiseSequence | bletool.c:274-278 | The send mode issues all four commands when every call succeeds. Otherwise it issues the ones before the failure and exits with status 1. |
| Session.CloseRestores | bletool.c:164-178 | On an open handle, `ofilter` goes back before the scan is disabled, then the handle is closed. |
| Session.CloseIgnoresRestore | bletool.c:170-177 | A failed restore is ignored: the scan is still disabled and the handle still closed. |
| Session.CloseDisableFails | bletool.c:172-176 | A failed disable exits with status 1 and leaves the handle open. |
| Session.LeScanClose | bletool.c:164-178 | `lescan_close` returns 0 or exits with status 1, and touches neither `ofilter`, `recvbuf` nor the output. When it returns, the scan is off and `dd` is closed. |
| Session.LeScanSetup | bletool.c:180-226 | A handle returned by `lescan_setup` other than -1 is open. Whenever it returns, the scan is on; otherwise it exits with status 1. |
| Session.SetupOutcome | bletool.c:180-226 | `lescan_setup` exits exactly when open, parameters or enable fail. It returns -1 exactly when `getsockopt` or `setsockopt` fails. |
| Session.SetupSuccess | bletool.c:189-225 | On success: a fresh handle, then parameters (passive, 0x0010, 0x0010, 0, 0), enable (on, no duplicate filter), and the LE Meta filter, in that order. The handle's own filter is saved in `ofilter`. |
| Session.ParamsFailureLeaks | bletool.c:191-197 | A failed parameters request opens a second handle through `lescan_close(-1)`, disables and closes it, then exits with the first handle still open. |
| Session.ScanSessionComplete | bletool.c:269-272 | In a full session the requests are, in order: parameters, enable, LE Meta filter, the saved filter back, disable. The restored filter is the handle's original one, the handles are as before, the scan is off, and one dump is printed per payload. |
| Session.GetoptFailureHangs | bletool.c:210-214 | A failed `getsockopt` closes the handle but leaves the scan enabled, prints its message, and the loop then spins on -1. |
| Session.SetoptFailureLeaks | bletool.c:220-223 | A failed `setsockopt` returns -1 without closing. The handle stays open with its own filter and the scan stays enabled while the loop spins on -1. |
| Session.ScanSession | bletool.c:269-272 | A receive session that returns leaves the scan off. One that spins on -1 or waits in `read` leaves it on. Any exit has status 1. |
| BleTool.Tool.constructor | bletool.c:120 | At start-up `ofilter` is zeroed, `recvbuf` is 260 zero bytes, and nothing is open or printed. |
| BleTool.Tool.CtrlCommand | bletool.c:61-90 | The procedure changes the adapter and ends exactly as `Session.CtrlCommand` states. |
| BleTool.Tool.Configure | bletool.c:92-97 | `ctrl_command` of the advertising-parameters text. |
| BleTool.Tool.AdvertiseEnable | bletool.c:99-107 | `ctrl_command` of "01" or "00" with OCF 0x000A. |
| BleTool.Tool.SetAdvertisementData | bletool.c:109-118 | The padding loop, then `ctrl_command` of the 64-digit text. |
| BleTool.Tool.RunAdvertise | bletool.c:274-278 | The four calls of send mode, as `Session.Advertise` states. |
| BleTool.Tool.ReadAdvertise | bletool.c:122-145 | The retry loop and the copy. It returns, updates `recvbuf` and `data` and consumes outcomes as `Report.ReadAdv` states, or reports a `read` still waiting. |
| BleTool.Tool.NextReport | bletool.c:156-159 | One pass of the receive loop: one `read_advertise`, then one `hex_dump` unless it returned 0. |
| BleTool.Tool.PrintAdvertisingDevices | bletool.c:147-161 | The loop reads, prints and leaves `recvbuf` and the unread outcomes as `Receive.Listen` states. |
| BleTool.Tool.LeScanClose | bletool.c:164-178 | The procedure follows `Session.LeScanClose`. |
| BleTool.Tool.LeScanSetup | bletool.c:180-226 | The procedure, with its writes to `ofilter` and standard output, follows `Session.LeScanSetup`. |
| BleTool.Tool.RunScan | bletool.c:269-272 | Receive mode: setup, then the loop, then close, or a spin on -1, or a `read` still waiting, as `Session.ScanSession` states. |

Behaviour of the code that the model keeps as written:

- **Socket-option failures.** A failed `getsockopt` or `setsockopt` in `lescan_setup` is not fatal. The function prints a message and returns -1. `main` then passes -1 to `print_advertising_devices`, whose `read` fails with an errno that is neither EINTR nor EAGAIN and is retried forever.
- **Cleanup on fatal errors.** Not every fatal path cleans up:
  - after a failed parameters request, `lescan_close(-1)` opens a second handle and the first one leaks;
  - a failed disable exits without closing.
- **Caller text.** It may have odd length: the last digit is kept as a high nibble. Text that would overflow `alldata` is neither rejected nor truncated; the model requires at most 37 digits.
- **Report frames.** Their length is not checked. `Report.DecodeReport` is a checking decoder kept beside the model only to state how `read_advertise` differs from it.

## Left out

- How devices are found and handles opened: `hci_devid`, `hci_get_route` and `hci_open_dev`. An open either hands out the next handle number or fails; which adapter is chosen is not modelled.
- The BlueZ and socket calls themselves. Their success is a parameter, the commands that reach the controller are a log, and the scan-parameter and scan-enable requests are logged as typed records, not wire bytes.
- The `hci_filter_*` bitmask contents. The four filters the program uses are abstract values (zeroed, socket default, all events, LE Meta only).
- Timeout arguments (1000 ms) and `sleep(1)`, which only pass time.
- `sigaction` and the SIGINT handler. An interrupt is a read outcome that carries whether `signal_received == SIGINT` at that moment.
- Command-line parsing with `getopt_long`, and `usage`, which are glue around the two modes.
- Big-endian hosts. `htons` is the byte swap of a little-endian host; `htobs` is the identity there, so the scan parameters keep their values.
- Text written with `perror` to standard error. Standard output is modelled: the dumps and the two `printf` messages of `lescan_setup`.
- `main`'s exit status when it returns normally.
- Hex.HexToBytes: requires every character to be a hex digit and the decoded bytes to fit the 260-byte buffer. `strtol` over the unterminated `tmp[2]` is undefined behaviour, so only the intended decoding is stated.
- Hci.BuildAdvText: requires hex digits and at most 37 of them. Longer text overflows `alldata[64]`, and `strlen` then reads the unterminated buffer; both are undefined behaviour.
- BleTool.Tool.ReadAdvertise: requires `datalen` to fit both `data` and `recvbuf`, and `data` to be a different array from `recvbuf`. The C copy has no such checks.
- BleTool.Tool.PrintAdvertisingDevices: requires an open handle. The handle -1 is handled one level up, where `BleTool.Tool.RunScan` and `Session.ScanSession` end with `Hangs` instead of running a non-terminating loop.
- A `read` still waiting when the outcome sequence runs out is reported as `Blocked`. The model does not decide what the controller sends later.
