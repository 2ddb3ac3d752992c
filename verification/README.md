# Toastmasters timer: a Dafny model

The Toastmasters timer extension watches the timer page of toastmasters.org
and streams the colour of the timer card to a microcontroller. On the Pico, an
LED strip shows that colour. This project models the deterministic core of
that chain and proves properties of it:

- `Monitor` (content.js): the `TimerMonitor` state machine. It covers element
  discovery, readings of time and background colour, change detection with a
  single callback slot, the poll tick and the monitoring lifecycle.
- `Codec` (popup.js): the colour block of the serial callback. The first three
  digit runs of a CSS colour become an `R,G,B` triplet, with `0,0,0` as the
  fallback. The triplet is framed by one newline.
- `Popup` (popup.js): the glue. It holds the timer-page predicate, the
  connection status, the optimistic toggle, `connectToSerial`,
  `disconnectFromSerial`, and the callback that writes each colour.
- `Serial` (webserial.js): `WebSerialManager`. It covers option defaults, the
  automatic filter, connect and disconnect, guarded write, and the bounded
  chunked read with its loop. It also covers `readString` and `sendCommand`.
- `Usb` (webusb.js): `WebUSBManager`. It covers options merged with caller
  keys winning, the request/open/configure/claim sequence, release and close,
  endpoint transfers, `readString`, `sendCommand`, and the two setters.
- `UsbSync` (webusb-examples.js): `TimerUsbSync`, a periodic sender of
  `TIME:<text>\n` that sends only changed text.
- `Device` (RPi-Pico/main.py): the firmware loop. Characters build a line. A
  line `R,G,B` sets all 64 LEDs to a tenth of each value and toggles the
  status LED.
- `Transport` and `Text` hold pieces both managers share: the write payload,
  `x || fallback`, and the command race. They also model the string functions
  of JavaScript and Python that the code relies on: `trim`, `strip`, `split`,
  `includes`, UTF-8 encoding, and stripping trailing NULs.
- `Wrappers` holds `Option`, `Result`, `Outcome` and `Key`.

Browser and device calls are not modelled. Each call becomes a parameter that
holds its outcome:
- a `SerialPlatform` or `UsbPlatform` record for connecting;
- a sequence of `ReadStep`s for a serial stream;
- a transfer `Result` for the USB endpoints;
- a `Race` for `Promise.race`.

A `TextDecoder` becomes a function parameter. Python's `int` on text that is
not a plain numeral also becomes a function parameter. Operations return the
platform calls they made, so the order of calls and the numbers passed can be
stated.

When `close` (or `releaseInterface`) throws, both managers rethrow and keep
`port`/`device` and `isConnected` as they were.

## Model

| member | source | states |
|---|---|---|
| Monitor.GetTimerValue | content.js:161-164 | without a time element the value is empty; otherwise it is the slice of the element's text (`textContent`, else `innerText`) left after cutting a run of JavaScript whitespace from each end, and it has no such whitespace at either end |
| Monitor.TimerValueUntrimmed | content.js:161-164 | an element text with no whitespace at its ends is read back unchanged |
| Monitor.ResolveBackground | content.js:171-188 | never empty; an opaque own background is kept; a transparent one (`""`, `rgba(0, 0, 0, 0)`, `transparent`) on a non-body element yields the nearest opaque ancestor background, every ancestor before it being transparent; with none, the own background if non-empty, else black |
| Monitor.GetTimerColor | content.js:166-189 | black without a colour element, otherwise the resolved background of the colour element; never empty |
| Monitor.Check | content.js:191-205 | calls the callback at most once, exactly when a callback is set and the time or the colour differs from the last reading, passing the current reading; afterwards the last values are the current reading whatever happened |
| Monitor.CheckTwiceEmitsOnce | content.js:195-204 | two checks of the same reading emit at most once between them, and the second emits nothing |
| Monitor.SetTimerChangeCallback | content.js:207-213 | replaces the single slot and nothing else; delivers once, immediately, iff the callback is non-null and the last time is non-empty, with the last colour or, when that is null or empty, a fresh colour reading |
| Monitor.IsTimeFormat | content.js:215-218 | `isTimeFormat` holds iff the text is non-empty and its trimmed form starts with one or two digits, a colon and two digits |
| Monitor.ClockPrefixIsPattern | content.js:215-218 | the character test used by `isTimeFormat` holds iff the text starts with one or two digits, a colon and two digits (both directions) |
| Monitor.TimeFormatExamples | content.js:215-218 | empty text is not a time; `123:45` is refused; `01:07` and `1:07 left` match because the pattern is a prefix |
| Monitor.Discover | content.js:28-77 | `timeDiv` wins, with `timergrid` (or `timeDiv` itself) as colour element; otherwise the first candidate in selector order whose text is a time binds both, and one is found iff some candidate looks like a time |
| Monitor.Stop | content.js:152-159 | no observers and no interval afterwards; nothing else changes |
| Monitor.StopIdempotent | content.js:152-159 | stopping twice is stopping once |
| Monitor.StartMonitoring | content.js:93-127 | stops what ran before; without a time element that is all; with one, the last values are seeded from the current readings, the time observer (and the colour observer when there is a colour element) and the poll run, no other observer survives, and the elements and callback are kept |
| Monitor.StartIsSilent | content.js:93-104 | seeding calls no callback: the first check after a start on an unchanged page emits nothing |
| Monitor.FindTimerElements | content.js:28-91 | binds the discovered elements and starts polling with seeded values, or adds the document watcher and changes nothing else |
| Monitor.Create | content.js:5-26 | a new monitor has no callback; it is polling with seeded values when discovery binds, else it only watches the document |
| Monitor.DocumentMutation | content.js:79-91 | with the watcher installed and `timeDiv` present, discovery re-runs and the watcher is gone; otherwise nothing changes |
| Monitor.Tick | content.js:128-149 | a detached time element, or a `timeDiv` id now naming another element, re-runs discovery without emitting; otherwise the tick is a check, emitting iff a callback is set and the reading changed, and what it emits is that callback with the current reading |
| Monitor.Destroy | content.js:220-223 | no observers, no interval and no callback; elements and last values kept |
| Monitor.DestroyIsFinal | content.js:220-223 | after `destroy` no check reaches a callback, and a second `destroy` changes nothing |
| Monitor.Run | content.js:191-205 | a run of checks keeps the callback, emits nothing without one, and ends remembering the last reading |
| Monitor.RunQuiet | content.js:195-204 | readings all equal to the remembered one emit nothing |
| Monitor.RunNeverRepeats | content.js:195-204 | the first emission differs from what the monitor remembered and no emission repeats the one before it |
| Codec.LeadingDigits | popup.js:203 | the length of the maximal run of digits that starts the string |
| Codec.DigitRuns | popup.js:203 | every match of `/\d+/g` is a non-empty run of ASCII digits |
| Codec.DigitRunsKeepDigits | popup.js:203 | the matches laid end to end are exactly the digits of the string, in order |
| Codec.ColorToTriplet | popup.js:201-207 | always a triplet; `0,0,0` for an empty colour or one with fewer than three digit runs; otherwise its fields are the first three runs, so a fourth run (alpha) is ignored |
| Codec.ColorMessage | popup.js:201-212 | a triplet followed by exactly one newline and no other newline |
| Codec.NumeralsSplit | popup.js:206 | three numerals joined by commas split back into them, and the join is a triplet |
| Codec.TripletChars | popup.js:206 | a triplet holds only digits and commas |
| Codec.TripletHasNoNewline | popup.js:206-212 | a triplet is ASCII, at least five characters long, and holds no newline |
| Codec.TripletRuns | popup.js:203-206 | the digit runs of a triplet are its three fields |
| Codec.ColorToTripletIdempotent | popup.js:201-207 | extracting again from an extracted triplet gives the same triplet |
| Codec.DigitRunsCons | popup.js:203 | a numeral followed by a non-digit is matched as exactly that run, and matching goes on after the non-digit |
| Codec.DigitRunsSingle | popup.js:203 | a numeral on its own is one match |
| Codec.LeadingRun | popup.js:203 | a match starting at a run of digits takes the whole run and stops at the first non-digit |
| Codec.DigitRunsSkip | popup.js:203 | a prefix without digits contributes no matches |
| Codec.RunThenTail | popup.js:203 | a numeral followed by a tail that starts with a non-digit is matched as that run, followed by the tail's matches |
| Codec.CssColorRuns | popup.js:203 | the digit runs of `rgb(r, g, b)`/`rgba(r, g, b, a)` are its channels followed by the runs of the tail |
| Codec.CssColorTriplet | popup.js:203-206 | the triplet of such a colour splits into exactly its three channels |
| Codec.CssColorMessage | popup.js:200-212 | the message for such a colour is `r,g,b` and a newline, whatever the alpha |
| Codec.FallbackExample | popup.js:201-210 | `transparent` and the empty colour are sent as `0,0,0` |
| Codec.GreenExample | popup.js:200-212 | `rgb(0, 128, 0)` is sent as `0,128,0` and a newline |
| Popup.CheckConnectionStatus | popup.js:265-268 | true iff the page has a serial manager and it is connected |
| Popup.OnTimerPage | popup.js:66-68 | the tab is the timer page iff its URL exists and `toastmasters.org` and `timer` each occur in it at some position |
| Popup.TimerPathOnTimerPage | popup.js:66-68 | any URL containing `toastmasters.org/timer` is the timer page |
| Popup.Open | popup.js:65-92 | the timer dot is on iff the URL is the timer page; the serial flag is on iff on that page and the injected status check returned true |
| Popup.OpenReportsPage | popup.js:74-87 | opened on the timer page, the popup's serial flag equals the page's real connection state |
| Popup.OnTimerChange | popup.js:195-222 | something is sent only when the manager is connected; what is sent is the UTF-8 of the colour's message; it is sent iff the port is writable and the write succeeds, and a failed write is swallowed |
| Popup.Deliver | popup.js:195-222 | one result per callback invocation, in order; each one sent carries its own colour's message, and is sent iff the page is connected, the port writable and that write succeeds |
| Popup.MessageChars | popup.js:212-214 | the bytes written, read back one character per byte, are the triplet and a newline |
| Popup.ColorReachesStrip | RPi-Pico/main.py:46-61 | end to end: a device with nothing buffered that reads the bytes of any colour message ends with an empty buffer, the status LED toggled and every LED set to the triplet's three numbers, dimmed |
| Popup.CssColorReachesStrip | popup.js:200-214 | end to end for `rgb(r, g, b)` and `rgba(...)`: the strip shows a tenth of each channel |
| Popup.ConnectAsWritten | popup.js:161-233 | as written: the port is opened and kept, but after a successful connect the call to the undefined `startReadLoop` lands in `catch`; the callback is never installed and a failure is alerted |
| Popup.ConnectAsWrittenNeverStreams | popup.js:184-232 | as written, a successful connection still alerts `Serial connection failed: manager.startReadLoop is not a function` and leaves the monitor without a callback |
| Popup.Connect | popup.js:161-233 | unsupported: alert only; a failed connect: the error is alerted and the monitor untouched; success: the callback is installed on the monitor and "connected" alerted; at most one immediate send, only when the monitor has a last time |
| Popup.ConnectStreams | popup.js:194-222 | after a successful connect, the next change the monitor notices is delivered to the callback, which writes that colour's message |
| Popup.DisconnectAsWritten | popup.js:236-262 | as written: no manager gives the "no device" alert; with a manager, calling the undefined `stopReadLoop` throws before anything happens |
| Popup.DisconnectAsWrittenKeepsPort | popup.js:241-243 | as written, disconnecting a connected page leaves it connected and the callback in place |
| Popup.Disconnect | popup.js:236-262 | no manager: "no device" alert; failed close: the error is alerted and nothing else changes; success: the manager is dropped, the monitor's callback cleared and "disconnected" alerted |
| Popup.DisconnectStopsStreaming | popup.js:243-252 | after a clean disconnect no check reaches a callback, the callback would send nothing, and the status check reports disconnected |
| Popup.Toggle | popup.js:110-129 | the flag flips at once; a connected flag disconnects, otherwise the page connects |
| Popup.ToggleIsOptimistic | popup.js:126-127 | after a refused port request the toggle reads connected while the page is not, until the popup is opened again |
| Transport.ToUint8 | webserial.js:143 | the byte `new Uint8Array` stores for an integer: the value itself in 0..255, and congruent to it modulo 256 always |
| Transport.ToBytes | webserial.js:143 | one byte per element, each the element reduced modulo 256 |
| Transport.Payload | webserial.js:139-148 | a string becomes its UTF-8 encoding, an array its elements modulo 256, a `Uint8Array` itself; any other value is refused with the invalid-type message |
| Transport.ByteArrayUnchanged | webserial.js:142-145 | an array of values already in 0..255 is sent unchanged |
| Transport.OrNullable | webusb.js:198 | `x \|\| fallback` for nullable numbers: `x` when truthy (neither `null` nor 0), else the fallback |
| Transport.OrNumber | webusb.js:126 | `x \|\| fallback` with a numeric fallback |
| Transport.Settle | webserial.js:237-256 | success iff the write succeeded, the read won the race and succeeded, yielding the read's bytes; a failed write, the timer winning, or a failed read each give `Command failed: ` and its own message |
| Serial.New | webserial.js:7-43 | not connected, no port; every option is its given value or its default (9600, 8, 1, `none`, 255, `none`, 5000, no debug, no filters); `usbVendorId ?? vendorId` keeps a given 0 |
| Serial.AutoFilter | webserial.js:58-69 | the list is extended by at most one filter, exactly when it is empty and an id is truthy, and that filter carries just the truthy ids |
| Serial.Connect | webserial.js:50-105 | unsupported: rejected with no state touched; requests with the automatic filter list, stored back when no argument was given; connected iff the request and the open succeed; every failure leaves it disconnected and is prefixed `Failed to connect to serial device: ` |
| Serial.AutoFilterAddedOnce | webserial.js:58-69 | a second argument-less connect requests with the same list as the first: the automatic filter is not added twice |
| Serial.Disconnect | webserial.js:111-125 | fails iff an open connection fails to close, and then changes nothing; otherwise the port is dropped and the manager disconnected |
| Serial.DisconnectIdleIgnoresPort | webserial.js:113-120 | without an open connection `disconnect` does not depend on the port's close |
| Serial.DisconnectIdempotent | webserial.js:111-125 | disconnecting again after a clean disconnect changes nothing |
| Serial.Write | webserial.js:132-161 | refused with no I/O unless connected and writable; an invalid argument and a failed write are both reported as `Failed to write data: `; success iff the write succeeds, sending exactly the payload |
| Serial.ReadSpec | webserial.js:168-218 | the answer without the loop: a prefix of everything the stream delivered, at most `length` bytes, all of it when the stream ended sooner; an error iff the stream broke before `length` bytes arrived |
| Serial.JoinChunks | webserial.js:200-205 | the chunks copied end to end, in order |
| Serial.Pull | webserial.js:177-193 | never reads past the step that satisfied it; the chunks kept are exactly the data delivered before the stop, and the loop ends because of a stop, `length` reached or the stream exhausted |
| Serial.Read | webserial.js:168-218 | equals the reference `ReadSpec` on a readable port and is refused with no reads otherwise; every step before the last one read was data, and before the last read fewer than `length` bytes had arrived |
| Serial.ReadString | webserial.js:225-228 | fails exactly when the read fails, with its message; otherwise the decoded text with its trailing NULs, and only those, removed |
| Serial.SendCommand | webserial.js:237-256 | the timer is the truthy argument or the configured timeout; the read starts iff the write succeeded; the result is the read's or `Command failed: ` with the write's, the timeout's or the read's message |
| Usb.Merge | webusb.js:18-25 | a key the caller gave wins, whatever its value; an absent key takes the default |
| Usb.New | webusb.js:7-28 | no device, configuration 1, interface 0, endpoints 1 in and 2 out; given option keys win even when 0 or `null`, absent ones are `null`, `null`, `[]`, 5000 |
| Usb.AutoFilter | webusb.js:40-48 | at most one filter is appended, exactly when the list is empty and an id is truthy, holding just the truthy ids |
| Usb.Attach | webusb.js:57-69 | opens first; a failed open stops there; selects the configuration only after a successful open and only when the device has none; claims the interface only when every earlier step succeeded; succeeds iff each step it made succeeded |
| Usb.Connect | webusb.js:35-80 | requests with the automatic filter list (stored back without an argument); a `null` configured list fails on `length`; connected iff request, open, select (when needed) and claim all succeed; a chosen device is kept; failures are prefixed `Failed to connect to USB device: ` |
| Usb.ConnectClaimsInterface | webusb.js:61-69 | a successful connect opened the device, claimed the configured interface, and selected the configured configuration iff the device had none |
| Usb.Disconnect | webusb.js:86-100 | with an open connection the calls are exactly `releaseInterface` then `close` when the release succeeds, and `releaseInterface` alone when it fails; fails iff either call fails, changing nothing; otherwise the device is dropped |
| Usb.ConnectThenDisconnect | webusb.js:35-100 | after a successful `connect`, a `disconnect` whose calls succeed releases the interface `connect` claimed, closes the device, forgets it and keeps configuration and interface |
| Usb.Write | webusb.js:108-137 | refused with no transfer unless connected with a device; the payload goes to the truthy endpoint argument, else to the configured out endpoint; the transfer's result is returned as it is, or its error prefixed `Failed to write data: ` |
| Usb.WriteStringSendsUtf8 | webusb.js:186-188 | `writeString` transfers the UTF-8 encoding of the text |
| Usb.Read | webusb.js:145-167 | refused with no transfer unless connected; reads from the truthy endpoint argument, else the configured in endpoint; succeeds iff the status is `ok` and data is present, returning that data; otherwise an error naming the status |
| Usb.ReadString | webusb.js:175-178 | fails exactly when the read fails; otherwise the decoded data with its trailing NULs, and only those, removed |
| Usb.SendCommand | webusb.js:197-216 | a failed write issues no read and is reported as `Command failed: `; otherwise the transfers are out then in on the configured endpoints; success iff the read wins the race and succeeds |
| Usb.CommandTimer | webusb.js:198 | the truthy timeout argument, else the configured timeout |
| Usb.SetEndpoints | webusb.js:266-270 | only the two endpoint numbers change |
| Usb.SetInterface | webusb.js:277-281 | only interface and configuration change, the configuration defaulting to 1 |
| Usb.EndpointsTakeEffect | webusb.js:266-270 | after `setEndpoints`, writes and reads without an endpoint use the new out and in endpoints |
| Usb.InterfaceTakesEffect | webusb.js:277-281 | after `setInterface`, a successful connect claims the new interface |
| UsbSync.New | webusb-examples.js:161-165 | no manager, no interval running, no last value |
| UsbSync.Connect | webusb-examples.js:167-175 | the new manager is for vendor 0x2341 and replaces the old one; it requests exactly one filter for that vendor; connected iff its connect succeeded |
| UsbSync.StartSync | webusb-examples.js:177-196 | refused with `USB device not connected` and no interval iff there is no connected manager; otherwise a new interval starts and is remembered, all running ones left running |
| UsbSync.StopSync | webusb-examples.js:198-203 | clears and forgets the remembered interval, if any; nothing else changes |
| UsbSync.StopSyncIdempotent | webusb-examples.js:198-203 | stopping twice is stopping once |
| UsbSync.TimeMessage | webusb-examples.js:188 | `TIME:`, the text, and a newline |
| UsbSync.Tick | webusb-examples.js:182-195 | a transfer is made iff the element's text differs from the last sent one and the manager is connected, carrying `TIME:<text>\n`; the last value advances only on a successful transfer; failures are swallowed |
| UsbSync.Fire | webusb-examples.js:182-195 | a cleared interval does nothing; a running one ticks |
| UsbSync.SentOnce | webusb-examples.js:187-189 | after a successful send the same text is not sent again |
| UsbSync.FailedSendRetried | webusb-examples.js:187-194 | after a failed send the next tick tries the same transfer again |
| UsbSync.StartSyncLeaks | webusb-examples.js:177-203 | as written: after two starts and a stop the first interval still runs, `stopSync` cannot reach it, and it keeps firing |
| UsbSync.StartSyncFixed | webusb-examples.js:177-196 | the start with the running interval cleared first: same refusal, and exactly the new interval runs afterwards |
| UsbSync.StopHaltsFixed | webusb-examples.js:198-203 | with the fixed start, one `stopSync` leaves no interval running, and no interval fires |
| UsbSync.Disconnect | webusb-examples.js:205-211 | syncing always stops; without a manager nothing else happens; the manager is dropped iff its disconnect succeeds, and its failure is passed on |
| Device.Boot | RPi-Pico/main.py:37-38 | an empty buffer and a dark strip of 64 LEDs |
| Device.Dim | RPi-Pico/main.py:27-29 | a tenth of the value truncated toward zero: `10w <= v < 10w + 10` for non-negative `v`, mirrored for negative |
| Device.SetColor | RPi-Pico/main.py:25-33 | all 64 LEDs get the same dimmed colour |
| Device.ParseInt | RPi-Pico/main.py:56-58 | a plain run of ASCII digits is read in decimal; other text is left to the `intOf` parameter |
| Device.ParseLine | RPi-Pico/main.py:50-65 | a colour only for a non-empty stripped line of exactly three comma-separated parts that all parse; a refused three-part line has a part that did not parse |
| Device.Receive | RPi-Pico/main.py:46-70 | a character other than newline is appended and nothing else changes; a newline always empties the buffer, and applies the line's colour and toggles the LED when it parses, else does nothing more |
| Device.Feed | RPi-Pico/main.py:40-70 | the loop keeps the strip at 64 LEDs |
| Device.FeedPartial | RPi-Pico/main.py:69-70 | characters without a newline only accumulate in the buffer |
| Device.FeedLine | RPi-Pico/main.py:48-68 | a whole line acts once, at its newline, on all its characters |
| Device.FeedSplit | RPi-Pico/main.py:40-70 | feeding two pieces is feeding one after the other |
| Device.NumeralLineSplits | RPi-Pico/main.py:54 | three numerals joined by commas split back into them |
| Device.NumeralsUnstripped | RPi-Pico/main.py:52 | a line that starts and ends with a digit is not changed by `strip` |
| Device.NumeralLine | RPi-Pico/main.py:52-59 | three numerals joined by commas parse as their decimal values, whatever `int` does with other text |
| Device.ThreeNumerals | RPi-Pico/main.py:52-59 | a line that splits into three numerals parses as their decimal values |
| Device.NumeralLineReceived | RPi-Pico/main.py:46-68 | such a line fed to a device with nothing buffered sets the strip, toggles the LED and leaves the buffer empty |
| Text.Contains | popup.js:66-68 | `includes` holds iff the text occurs at some position |
| Text.Strip | content.js:163 | the result is a slice of the text with only stripped characters cut from either end, and has no stripped character at either end; all-space text strips to empty; text with none at its ends is unchanged |
| Text.StripIdempotent | content.js:163 | stripping again changes nothing |
| Text.JsTrim | content.js:163 | `trim` keeps the slice between a leading and a trailing run of JavaScript whitespace, and that slice has no such whitespace at either end |
| Text.PyStrip | RPi-Pico/main.py:52 | `strip` keeps the slice between a leading and a trailing run of Python whitespace (so a trailing `\r` goes too), and that slice has no such whitespace at either end |
| Text.Utf8Encode | webserial.js:141 | a string encodes to between one and four bytes per character |
| Text.Utf8EncodeAppend | webserial.js:141 | the encoding of a concatenation is the concatenation of the encodings |
| Text.Split | RPi-Pico/main.py:54 | at least one part, and no part contains the separator |
| Text.JoinSplit | RPi-Pico/main.py:54 | joining the parts of a split gives back the line |
| Text.SplitJoin | RPi-Pico/main.py:54 | splitting a join of separator-free parts gives back the parts |
| Text.StripTrailingNul | webusb.js:177 | a prefix of the text, followed in the text only by NULs, and not ending in NUL |
| Text.TrailingNulUnique | webusb.js:177 | those three properties determine the result |
| Text.EncodeChar | webserial.js:141 | one to four bytes per character, one byte exactly for ASCII |
| Text.EncodeCharRoundTrip | webserial.js:141 | every character's encoding decodes back to it |
| Text.AsciiEncoding | RPi-Pico/main.py:46 | an ASCII string encodes to one byte per character, and reading those bytes back one character each gives the string |

## Left out

- The DOM is an input, not a simulation. `MutationObserver` delivery timing, `getComputedStyle` and `isConnected` are left out; a `Dom` value states what each would return. Observer and poll firings are explicit steps.
- `init` waiting for `DOMContentLoaded` is left out: `Monitor.Create` takes a loaded page.
- `setInterval` timing is left out: intervals are numbered, firing is `Fire`/`Tick`, and the period (200 ms, 1000 ms, `intervalMs`) is not modelled.
- `navigator.serial` and `navigator.usb`, ports, devices, stream readers and writers are left out: each call is an outcome parameter.
- `isSupported` and `getPairedDevices` are left out; support is the `supported` flag of the serial platform.
- `getDeviceInfo` of both managers is left out: it copies fields of a foreign object and promises nothing.
- `TextDecoder` is a function parameter; `TextEncoder` is UTF-8 over Unicode scalar values, so lone UTF-16 surrogates are not modelled.
- Serial stream chunks are modelled as bytes; the conversion of a non-`Uint8Array` chunk is not modelled.
- A serial read whose stream sequence runs out is treated as if the stream had ended; a real reader would wait.
- `Promise.race` is the `Race` choice. A read that loses the race keeps running in the source; its later effects are not modelled.
- Serial.New: serial options given as `null` are not modelled, an absent option takes its default. For the numeric options this only loses `null` values. For `filters` it also loses a failure: `filters: null` skips the default `[]`, and spreading it makes the constructor throw a `TypeError`.
- Popup.Toggle: is built on the corrected `Popup.Connect` and `Popup.Disconnect`, not on the as-written pair, so that its flag can be compared with a working connection. With the as-written pair, a toggle that connects alerts a failure, and one that disconnects throws and leaves the port open (see the findings below).
- Array aliasing is not modelled: the source pushes the automatic filter into a filter list passed as an argument, which the caller can observe. The model keeps the list stored in `options`.
- The popup's callback is modelled writing to the page's current serial manager. The source closes over the manager it created; the two coincide until `window.serialManager` is replaced.
- Popup UI is not modelled: dot classes, labels, button text, the navigate, test and reload buttons, tab queries and `executeScript` plumbing. Of the UI, only the timer flag and the optimistic serial flag are kept.
- The optional read loop is not modelled: `startReadLoop` and `stopReadLoop` are not defined by `WebSerialManager`, and the model invents none (see Findings).
- Logging (`log`, `console.*`, the `debug` option's effect) is not modelled.
- Device.Dim: exact integer truncation of `v / 10`, where the source multiplies by the float `0.1`. The two agree for the channel values a browser colour produces. Floating-point rounding for very large values is not modelled.
- Device.ParseInt: only plain ASCII-digit text is read exactly; everything else Python's `int` accepts or refuses (signs, underscores, surrounding spaces, other digit sets) is decided by the `intOf` parameter, so the model does not claim such text fails.
- The neopixel, `machine.Pin`, the LED's physical state and `select.poll` are not modelled; `set_color` is the pixel sequence it would write, and out-of-range pixel values are not checked.
- Concurrency between observer callbacks, poll ticks and overlapping asynchronous writes is not modelled.

## Findings

| source | as written | input that shows it | evidently intended | confidence | as-written member | corrected member |
|---|---|---|---|---|---|---|
| popup.js:191 | after a successful connect `connectToSerial` calls `manager.startReadLoop()`, which `WebSerialManager` does not define; the `TypeError` goes to `catch` | any connect where the port request and the open succeed | the monitor callback installed and "connected" alerted | high; not executed | Popup.ConnectAsWrittenNeverStreams | Popup.ConnectStreams |
| popup.js:242 | `disconnectFromSerial` calls the undefined `manager.stopReadLoop()` first, throwing before the port is closed | any click on "Disconnect Serial" while a manager exists | the port closed, the callback cleared and the manager dropped | high; not executed | Popup.DisconnectAsWrittenKeepsPort | Popup.DisconnectStopsStreaming |
| webusb-examples.js:182 | `startSync` overwrites `syncInterval` without clearing the interval already running | `startSync` twice on a connected sync, then `stopSync` | starting again replaces the running interval, so one `stopSync` halts sending | medium; not executed | UsbSync.StartSyncLeaks | UsbSync.StopHaltsFixed |

For the first two rows, `Popup.ConnectAsWritten` and `Popup.DisconnectAsWritten` model the code as written. `Popup.Connect` and `Popup.Disconnect` are the corrected functions, and `Popup.Toggle` uses them. For the third row, `UsbSync.StartSync` models the code as written and `UsbSync.StartSyncFixed` is the corrected start.
