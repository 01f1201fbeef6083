# OmronVTInterfaceModule bridge core, modelled in Dafny

The OmronVTInterfaceModule is a small bridge on a Jetson board. One or two
Omron barcode scanners sit on the LAN. The current barcode is forwarded over a
serial line to a vision inspection machine. This project models the core of
that bridge as pure Dafny functions and methods, and proves properties of them.

| file | module | what it models |
|---|---|---|
| `optional.dfy` | `Optional` | `Option`, for Python's "raises" and "absent" |
| `text.dfy` | `Text` | the parts of Python `str`/`int` the core relies on: `strip()`, `lower()`, `startswith`, `find`, `split(sep)`, `str(int)`, `int(str)` |
| `config.dfy` | `OvtimConfig` | the constants and tables of `ovtimconfig.py` |
| `barcode.dfy` | `BarcodeDebounce` | the read loop of `readDataFromLan`: line normalisation, the per-IP rate limit with its "too soon" log suppression, new-versus-repeat classification, the one-entry history, and the process-wide current barcode |
| `retry.dfy` | `ConnectRetry` | the three-attempt connect loops of `readDataFromLan` (LAN) and `sendBarcode` (serial) |
| `forwarder.dfy` | `OutputForwarder` | the send loop of `sendBarcode`: the 30 s freshness gate, the CR LF framing, the pause after each write attempt |
| `discovery.dfy` | `Discovery` | `ethernetAutoDetect`: the fixed UDP query, parsing of answers, the listener's 10 s lifetime, the sender's resend every 5 s and at most three sends, and the result event |
| `profiles.dfy` | `ProfileConfig` | `readConfig`: the early exits (code 3), the active profile (code 1), per-side validation of Ethernet and RS232 settings (code 2), model normalisation, storing profiles by name, and the returned enabled flags |

Clocks, sockets, threads and the host libraries become parameters:
- Every handled line and every loop pass carries a `real` clock reading.
- Connection attempts and serial writes are boolean outcomes.
- A datagram is an `Option<string>`; `None` means `recvfrom` raised.
- Python's `ipaddress.ip_address` and pyserial's tables of accepted line settings are the fields of a `Host` value.

A notification sent to the browser is the returned outcome or report, not a
side effect.

Places where the code's own comments or log messages say something else:
- `readConfig` rejects a file with exactly one profile as unusable (code 3). It tests `len(profiles) <= 1`, while its log message speaks of "no profiles".
- When no active profile is set, `readConfig` takes the first profile with a non-empty name. Its comment says "first valid profile", but validity plays no part.
- When the current barcode is stale, the send loop of `sendBarcode` has no pause. `PauseAfter` is 0 there: the loop spins.
- The listener of `ethernetAutoDetect` gives up 10 s after it starts. The third broadcast goes out more than 10 s after the first. An answer to the third broadcast is therefore never read (`Discovery.ThirdBroadcastUnheard`).
- A line that is not ASCII makes `decode('ascii')` raise outside any `try`. This ends that scanner's read loop (`LineOutcome.Aborted`).

The model follows the code in every one of these cases.

## Model

| member | source | states |
|---|---|---|
| `BarcodeDebounce.DecodeAscii` | OmronVTInterfaceModule/__init__.py:207 | decoding succeeds exactly when every byte is below 128, and then maps each byte to the character with that code |
| `BarcodeDebounce.Escape` | OmronVTInterfaceModule/__init__.py:207 | the escaped text contains no `<`, `>`, `'` or `"`, and is never shorter than the input |
| `BarcodeDebounce.EscapeIdentity` | OmronVTInterfaceModule/__init__.py:207 | escaping leaves a text unchanged if and only if it contains none of the five markup characters |
| `BarcodeDebounce.Normalize` | OmronVTInterfaceModule/__init__.py:207 | a line yields a barcode exactly when it is ASCII, and that barcode has no surrounding whitespace |
| `BarcodeDebounce.NormalizeExample` | OmronVTInterfaceModule/__init__.py:182-207 | a line of capital letters and digits, terminated by CR LF as `read_until` returns it, normalises to exactly those letters and digits |
| `BarcodeDebounce.NewRecord` | OmronVTInterfaceModule/__init__.py:213-214 | a first-seen scanner starts with an empty history, no suppressed log, and a window that is already over |
| `BarcodeDebounce.PushBounded` | OmronVTInterfaceModule/__init__.py:232 | appending to a deque of maximum length 1 keeps at most one entry, makes the new entry the last, and keeps the newest older entries in order |
| `BarcodeDebounce.Debounce` | OmronVTInterfaceModule/__init__.py:216-242 | a read is rejected if and only if it comes within 0.1 s of the window start. A rejection changes only the suppression flag and is logged only the first time. An acceptance restarts the window and ends the history with this barcode. It is an update if and only if the barcode repeats the newest entry. The history never exceeds one entry |
| `BarcodeDebounce.Handle` | OmronVTInterfaceModule/__init__.py:213-242 | a normalised barcode is either rejected or accepted; the first barcode from an unknown IP is always accepted as new information |
| `BarcodeDebounce.HandleScanners` | OmronVTInterfaceModule/__init__.py:211-214 | handling a barcode creates or updates the record of that IP and of no other, and keeps that record's history within the deque bound |
| `BarcodeDebounce.HandleRejected` | OmronVTInterfaceModule/__init__.py:216-219 | a rejection happens only for a known scanner inside its window; it leaves that scanner's history and window start, and the current barcode with its time, unchanged |
| `BarcodeDebounce.HandleAccepted` | OmronVTInterfaceModule/__init__.py:220-242 | an acceptance makes the barcode current as of now, restarts the scanner's window now, and makes the barcode the newest history entry |
| `BarcodeDebounce.OnLine` | OmronVTInterfaceModule/__init__.py:191-242 | a line of at most one byte is ignored, and a non-ASCII line aborts the loop, both without touching any state; every other line is handled as its normalised barcode |
| `BarcodeDebounce.OnLineCurrent` | OmronVTInterfaceModule/__init__.py:228-241 | only an accepted line changes the current barcode, and it sets it to that line's barcode and time |
| `BarcodeDebounce.HistoryStaysBounded` | OmronVTInterfaceModule/__init__.py:214 | over any sequence of lines, no scanner's history grows beyond one entry |
| `BarcodeDebounce.AcceptedScansSpaced` | OmronVTInterfaceModule/__init__.py:216-222 | on a clock that does not run backwards, two accepted lines from the same IP are at least 0.1 s apart, whatever other scanners send in between |
| `BarcodeDebounce.CurrentIsLastAccepted` | OmronVTInterfaceModule/__init__.py:228-241 | after any sequence of lines, the current barcode and its time are those of the last accepted line |
| `BarcodeDebounce.CurrentUnchangedWithoutAcceptance` | OmronVTInterfaceModule/__init__.py:216-219 | a sequence of lines with no acceptance leaves the current barcode and its time as they were |
| `BarcodeDebounce.ExampleRun` | OmronVTInterfaceModule/__init__.py:213-242 | one scanner reads A at 0, 0.05 and 0.2 s, then X at 0.4 s. The outcomes are: new; too soon (logged); update; new. X ends current from 0.4 s |
| `ConnectRetry.Connect` | OmronVTInterfaceModule/__init__.py:161-177 | the loop connects if and only if one of three attempts succeeds, and stops at the first success. Each failure gets one notice, in order; only the third is terminal (`error` for LAN, `errorSerial` for serial). The loop pauses 30 s before every retry and not after the last failure, so its pauses total 30 s per attempt beyond the first |
| `OutputForwarder.Forward` | OmronVTInterfaceModule/__init__.py:268-277 | nothing is written if and only if the barcode is more than 30 s old; a write succeeds exactly when the barcode is fresh and the port accepts it; whatever is written ends in CR LF |
| `OutputForwarder.PauseAfter` | OmronVTInterfaceModule/__init__.py:273-276 | the 10 s pause follows every write attempt, successful or not, and none follows a stale pass |
| `OutputForwarder.SendLoop` | OmronVTInterfaceModule/__init__.py:267-277 | over any sequence of passes, the machine receives exactly the CR LF framed current barcodes of the fresh passes whose write succeeded, in order. The failed writes are exactly the other fresh passes, and a failure does not end the loop. The loop's own pause is 10 s per write attempt |
| `OutputForwarder.AttemptsAreFreshPasses` | OmronVTInterfaceModule/__init__.py:267-277 | delivered payloads and failed writes together are one per fresh pass, and every delivered payload ends in CR LF |
| `OutputForwarder.ForwardsAcceptedBarcode` | OmronVTInterfaceModule/__init__.py:268-270 | after a scan is accepted, the machine receives exactly that barcode followed by CR LF up to 30 s later, and nothing after that |
| `OutputForwarder.NothingForwardedInitially` | OmronVTInterfaceModule/__init__.py:268 | with the start-up current barcode, nothing is written once the clock is past 30 s |
| `Discovery.ExtractFrom` | OmronVTInterfaceModule/ovtimfunctions.py:336-345 | the field assignments complete if and only if every field exists. When they complete, each key holds its field. Keys already present stay, and those not assigned keep their value |
| `Discovery.Absorb` | OmronVTInterfaceModule/ovtimfunctions.py:332-355 | the pass has no datagram exactly when `recvfrom` raised, and only a candidate or a swallowed exception can change the stored fields |
| `Discovery.AbsorbClassifies` | OmronVTInterfaceModule/ovtimfunctions.py:334-335 | an answer is taken for a device if and only if it has field 6, field 6 is not `espip`, and every copied field exists; it is recognised as the query if and only if field 6 is `espip` |
| `Discovery.AbsorbCandidateFields` | OmronVTInterfaceModule/ovtimfunctions.py:336-345 | a candidate's nine fields overwrite whatever an earlier malformed answer left behind |
| `Discovery.QueryFields` | OmronVTInterfaceModule/ovtimfunctions.py:381 | the broadcast query splits into its nine fields, with `espip` at index 6 |
| `Discovery.QueryEchoIgnored` | OmronVTInterfaceModule/ovtimfunctions.py:335 | the listener's own broadcast, received back, is never taken for a device and changes nothing |
| `Discovery.ListenDetects` | OmronVTInterfaceModule/ovtimfunctions.py:326-348 | if some pass within the listener's 10 s lifetime carries the first candidate answer, the listener reports a device and holds exactly that answer's fields |
| `Discovery.DetectionHasFirstCandidate` | OmronVTInterfaceModule/ovtimfunctions.py:328-348 | conversely, whenever the listener reports a device, there is a first candidate pass within its lifetime |
| `Discovery.SendLoop` | OmronVTInterfaceModule/ovtimfunctions.py:380-406 | the broadcasts are those of the reference run `SendsAfter`: the first at the start, and a new one at every pass more than 5 s after the last while fewer than three went out. The loop ends exactly at the first pass that sees the listener's signal, or gives up exactly at a pass more than 5 s after the third broadcast, more than 15 s after the start. Giving up emits the failure event and a signal emits the final report |
| `Discovery.SendsSpaced` | OmronVTInterfaceModule/ovtimfunctions.py:386-396 | in every run, consecutive broadcasts are more than 5 s apart |
| `Discovery.ThirdBroadcastUnheard` | OmronVTInterfaceModule/ovtimfunctions.py:329 | the listener stops 10 s after it starts, so an answer it reports always arrives before the third broadcast |
| `Discovery.GaveUpReportsFailure` | OmronVTInterfaceModule/ovtimfunctions.py:387-391 | when the sender gives up, the event it emits is a failure with `str(-1)` as address and port and empty name, model and MAC |
| `Discovery.DetectionReported` | OmronVTInterfaceModule/ovtimfunctions.py:400-403 | when a device is detected, the success event carries the answer's fields 6, 14, 17 and 5 and the value part of field 19 |
| `ProfileConfig.StrOfIntRoundTrip` | OmronVTInterfaceModule/ovtimfunctions.py:145 | an integer stored as its decimal text is read back by `int()` as the same integer |
| `ProfileConfig.ValidateSide` | OmronVTInterfaceModule/ovtimfunctions.py:132-215 | the side starts enabled and each failing check of its comm type clears the flag, so it ends enabled if and only if it is valid. Any comm type other than `rs232` (ignoring case) is rewritten to `ethernet`. An unknown model becomes `Other Scanner`. Nothing else changes |
| `ProfileConfig.SideChecksAllPass` | OmronVTInterfaceModule/ovtimfunctions.py:132-209 | the checks the code runs for a side (address and port for Ethernet; port name, baud rate, byte size, stop bits and parity for RS232) all pass exactly when the side is valid |
| `ProfileConfig.OtherScannerUnknown` | OmronVTInterfaceModule/ovtimfunctions.py:212-213 | the replacement model `Other Scanner` is itself not a known model |
| `ProfileConfig.ValidatedSideNormal` | OmronVTInterfaceModule/ovtimfunctions.py:133-135 | after validation the comm type is serial or exactly `ethernet`, and the model is known or exactly `Other Scanner` |
| `ProfileConfig.ValidateSideIdempotent` | OmronVTInterfaceModule/ovtimfunctions.py:132-215 | validating an already validated side changes nothing and gives the same enabled flag |
| `ProfileConfig.EthernetPortAsText` | OmronVTInterfaceModule/ovtimfunctions.py:143-153 | an Ethernet side with an accepted address and a port written as decimal text is enabled if and only if the port is in 1..65535 |
| `ProfileConfig.CheckProfile` | OmronVTInterfaceModule/ovtimfunctions.py:130-301 | the bottom and the top flag are each set exactly when that side's values pass validation |
| `ProfileConfig.DefaultActive` | OmronVTInterfaceModule/ovtimfunctions.py:303-305 | the default active profile is a profile's name whenever there is a profile, and a non-empty default is always a profile's name |
| `ProfileConfig.StoreAll` | OmronVTInterfaceModule/ovtimfunctions.py:116-308 | the loop stores a profile under every name in the list. The code becomes 2 if and only if some profile has a failing side. An empty active name becomes the default |
| `ProfileConfig.StoreAllFlagsAgree` | OmronVTInterfaceModule/ovtimfunctions.py:306-308 | throughout the loop, the returned flags are those stored for the profile with the active name |
| `ProfileConfig.StoreAllKeepsLast` | OmronVTInterfaceModule/ovtimfunctions.py:116-119 | profiles not in the list are left alone, and under each name the last profile with that name is stored |
| `ProfileConfig.StartAcc` | OmronVTInterfaceModule/ovtimfunctions.py:95-105 | the loop starts with nothing stored and code 0 or 1 |
| `ProfileConfig.StartAccCode` | OmronVTInterfaceModule/ovtimfunctions.py:95-105 | the starting code is 0 if and only if the main section names an existing profile |
| `ProfileConfig.ReadConfig` | OmronVTInterfaceModule/ovtimfunctions.py:90-117 | code 3 stores and enables nothing. It is returned if and only if the profile list is missing or has at most one entry, the main section is missing, or an active profile is set and some profile has no name. An unnamed profile without an active profile crashes the function. Codes never exceed 3 |
| `ProfileConfig.ReadConfigStoresAll` | OmronVTInterfaceModule/ovtimfunctions.py:116-124 | past the early exits, the stored profiles are exactly those named in the file |
| `ProfileConfig.ReadConfigCodes` | OmronVTInterfaceModule/ovtimfunctions.py:90-309 | past the early exits the code is 2 if and only if some side of some profile is invalid. Otherwise it is 0 when the main section names an existing profile, and 1 when it does not |
| `ProfileConfig.ReadConfigActive` | OmronVTInterfaceModule/ovtimfunctions.py:302-308 | the active profile is the one the main section names when it exists and is non-empty, and otherwise the first non-empty name. It is always stored, and the returned flags are its enabled flags |
| `ProfileConfig.ReadConfigStoresLast` | OmronVTInterfaceModule/ovtimfunctions.py:116-119 | when several profiles share a name, the checked version of the last of them is stored |
| `ProfileConfig.BottomKeySetSpelled` | OmronVTInterfaceModule/ovtimconfig.py:33 | the first ten profile keys are exactly `bs` followed by each side field |
| `ProfileConfig.TopKeySetSpelled` | OmronVTInterfaceModule/ovtimconfig.py:33 | the last ten profile keys are exactly `ts` followed by each side field |
| `ProfileConfig.DictKeys` | OmronVTInterfaceModule/ovtimfunctions.py:119-132 | every stored profile has exactly the twenty profile keys plus `bsenabled` and `tsenabled`, and the flags are stored as 1 or 0 |
| `ProfileConfig.SideViewRoundTrip` | OmronVTInterfaceModule/ovtimfunctions.py:120-124 | reading a side back out of a stored profile's keys gives exactly that side |
| `ProfileConfig.StoredValue` | OmronVTInterfaceModule/ovtimfunctions.py:119-135 | under each of the twenty keys a stored profile holds the file's value, or `''` when the file has none; the exceptions are the model, where an unknown one becomes `Other Scanner`, and the comm type, which becomes `ethernet` unless it is `rs232` |
| `ProfileConfig.DictAt` | OmronVTInterfaceModule/ovtimfunctions.py:119-124 | in a stored profile's dictionary, the key of each side setting holds that side's setting and no other value |
| `OvtimConfig.IniValuesMirrored` | OmronVTInterfaceModule/ovtimconfig.py:33 | the key list is the ten side fields under `bs` followed by the same ten under `ts` |
| `OvtimConfig.IniValuesDistinct` | OmronVTInterfaceModule/ovtimconfig.py:33 | no profile key is listed twice |
| `OvtimConfig.ModelValuesLowercase` | OmronVTInterfaceModule/ovtimconfig.py:37 | every model name is already lower case, so a lower-cased configured model can match it |
| `Text.Strip` | OmronVTInterfaceModule/__init__.py:207 | `strip()` never lengthens its text and leaves no whitespace at either end |
| `Text.StripSurrounds` | OmronVTInterfaceModule/__init__.py:207 | what `strip()` removes is whitespace, and only from the two ends |
| `Text.StripIdempotent` | OmronVTInterfaceModule/__init__.py:270 | stripping an already stripped barcode again, as the send loop does, changes nothing |
| `Text.StripFixedPoints` | OmronVTInterfaceModule/__init__.py:207 | `strip()` leaves a text unchanged if and only if it has no whitespace at either end |
| `Text.Lower` | OmronVTInterfaceModule/ovtimfunctions.py:133 | `lower()` keeps the length and maps each capital letter `A`..`Z` to its lower-case letter and every other character to itself; so no capital letter remains and a lower-case text is unchanged |
| `Text.JoinSplit` | OmronVTInterfaceModule/ovtimfunctions.py:334 | joining the pieces of `split(',')` gives the datagram back, and no piece contains the separator |
| `Text.SplitJoin` | OmronVTInterfaceModule/ovtimfunctions.py:334 | splitting a join of separator-free pieces gives the pieces back |
| `Text.DigitsRoundTrip` | OmronVTInterfaceModule/ovtimfunctions.py:145 | the decimal digits of a natural number have that number as their value |
| `Text.ParseIntOfDecimal` | OmronVTInterfaceModule/ovtimfunctions.py:145 | `int(str(i)) == i` for every integer `i` |

## Left out

- Sockets, Telnet, the serial port (`TimeManager`) and the Socket.IO events are left out. Their outcomes are parameters: connection attempts, write results, received lines and datagrams, and clock readings. Notifications are the returned outcomes.
- Threads are left out. Each loop is modelled sequentially, and the listener's signal to the sender is the `flagSet` reading of each sender pass. Interleavings of the LAN read loops for two scanners are covered by `Replay`, which takes lines from any IPs in any order.
- The `sleep(0.5)` and `read_until` timeout of the read loop, and its connection-reset and error exits, are left out. The loop is modelled from the line it received.
- The `datetime` text timestamps in history entries and notifications are left out. An entry carries the clock reading instead.
- The scanner port plays no part in the model: scanner state is keyed by IP alone, as in the code.
- `BarcodeDebounce.Debounce`: compares exact real clock readings. The code subtracts floating-point seconds, so a read exactly 0.1 s after the window start can come out just below 0.1 (0.3 - 0.2 is 0.09999999999999998 in Python) and be rejected where the model accepts it.
- `OutputForwarder.Forward`: the 30 s freshness test is on exact reals; the code's float subtraction can put a barcode exactly 30 s old on either side of the limit.
- `OutputForwarder.Forward`: a pass's `writeOk` stands for the whole `try` body not raising. If the flush, a sleep or the notification fails after the bytes were written, the machine has the barcode but the model counts a failed write, so `Delivered` can miss a payload the machine did receive.
- `Discovery.SendLoop`: takes one clock reading per pass, for both the 5 s test and the new resend time, while the code calls `time.time()` separately for each. The readings differ only by the loop's own running time.
- `OutputForwarder.SendLoop`: counts only the loop's own 10 s pause. `TimeManager.send` (ovtimfunctions.py:20-32) also sleeps 2 s after the write and 2 s after the flush; that time is left out with the rest of `TimeManager`.
- `BarcodeDebounce.OnLine`: takes one clock reading per line, while the code calls `time.time()` separately for the window test and the timestamps. The readings differ only by the handler's own running time.
- `BarcodeDebounce.Escape`: models markupsafe's replacement table for the five characters it escapes; the `Markup` type itself is left out.
- `Text.Lower`: folds only ASCII capital letters, while Python's `lower()` also folds other scripts. The model names and comm type it is compared with are ASCII.
- `Text.ParseIntOfDecimal`: `int()` is modelled for ASCII decimal text with an optional sign, surrounding whitespace and single underscores. Other bases, non-ASCII digits and floats are left out.
- `ProfileConfig.ReadConfig`: models a file already loaded by `json.load`. It assumes `profiles` is a list of objects and `main` is an object. Profile names and `activeProfile` are strings when present. Field values are null, booleans, integers or strings. Floats, lists and nested objects as values are left out, as are the file's opening and the JSON decoding errors.
- `ProfileConfig.ValidateSide`: `ipaddress.ip_address` and pyserial's `BAUDRATES`, `BYTESIZES`, `STOPBITS` and `PARITIES` are parameters. `STOPBITS` is taken as a set of integers, because the code compares `int(value)`.
- `Discovery.Absorb`: receives the datagram already decoded as text. The `data.decode()` step and the 1024-byte receive limit are left out.
- `Discovery.SendLoop`: the broadcast socket's send and bind, and the sender's own busy loop between readings, are left out. Each reading is one pass of that loop.
- The rest of the repository is not part of this model: the page routes, the logging set-up `initLogging`, `isScannerConnectedLan` with `testTelnetConn`, `overwriteConfigFile`, and the thread start-up in `getScannerInfo`.
