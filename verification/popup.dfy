/** The popup's glue: whether the active tab is the timer page, the toggle
    that connects or disconnects the serial device, the functions it injects
    into the page (`connectToSerial`, `disconnectFromSerial`,
    `checkConnectionStatus`), and the timer callback that streams each colour
    to the device.

    The page's globals are a `Page`: `window.serialManager`,
    `window.timerMonitor` with the document it watches, and the alerts shown. */
module Popup {
  import opened Wrappers
  import opened Text
  import opened Transport
  import Serial
  import Monitor
  import Codec
  import Device

  /** The callback `connectToSerial` hands the timer monitor. It writes to
      the page's serial manager. */
  datatype Hook = ColorToSerial

  datatype Page = Page(
    serialManager: Option<Serial.SerialManager>,
    timerMonitor: Option<Monitor.Monitor<Hook>>,
    dom: Monitor.Dom,
    alerts: seq<string>)

  /** The monitor's elements belong to the document it watches. */
  predicate Valid(page: Page) {
    page.timerMonitor.Some? ==> Monitor.Bound(page.timerMonitor.value, page.dom)
  }

  const Unsupported: string := "Web Serial is not supported or not enabled in this browser"
  const ConnectionFailed: string := "Serial connection failed: "
  const Connected: string := "Serial device connected! Check console for details."
  const NoDevice: string := "No Serial device connected"
  const Disconnected: string := "Serial device disconnected"
  const DisconnectFailedAlert: string := "Disconnect failed: "
  /** The `TypeError` of calling a method `WebSerialManager` does not define. */
  const NoStartReadLoop: string := "manager.startReadLoop is not a function"
  const NoStopReadLoop: string := "manager.stopReadLoop is not a function"

  // ---------------------------------------------------------------------------
  // Popup state
  // ---------------------------------------------------------------------------

  /** The active tab is the timer page when its URL exists and contains both
      `toastmasters.org` and `timer`. */
  predicate OnTimerPage(url: Option<string>)
    ensures OnTimerPage(url) <==> (url.Some?
      && (exists i :: OccursAt(url.value, "toastmasters.org", i))
      && (exists j :: OccursAt(url.value, "timer", j)))
  {
    url.Some? && Contains(url.value, "toastmasters.org") && Contains(url.value, "timer")
  }

  /** Any URL with `toastmasters.org/timer` in it, whatever surrounds it, is
      the timer page. */
  lemma TimerPathOnTimerPage(url: string, i: int)
    requires OccursAt(url, "toastmasters.org/timer", i)
    ensures OnTimerPage(Some(url))
  {
    var site, path := "toastmasters.org", "timer";
    assert "toastmasters.org/timer" == site + "/" + path;
    assert url[i..i + |site|] == url[i..i + 22][..|site|];
    assert OccursAt(url, site, i);
    assert url[i + 17..i + 22] == url[i..i + 22][17..];
    assert OccursAt(url, path, i + 17);
  }

  /** `checkConnectionStatus`: the page has a serial manager and it is connected. */
  function CheckConnectionStatus(page: Page): (b: bool)
    ensures b <==> page.serialManager.Some? && page.serialManager.value.isConnected
  {
    page.serialManager.Some? && page.serialManager.value.isConnected
  }

  /** The popup's status flags: the timer dot and the serial toggle's idea of
      whether the device is connected. */
  datatype Ui = Ui(timerActive: bool, serialConnected: bool)

  /** The popup opening. `status` is what the injected `checkConnectionStatus`
      returned, `None` when the injection failed. */
  function Open(url: Option<string>, status: Option<bool>): (ui: Ui)
    ensures ui.timerActive <==> OnTimerPage(url)
    ensures ui.serialConnected <==> OnTimerPage(url) && status == Some(true)
  {
    if OnTimerPage(url) then Ui(true, status == Some(true)) else Ui(false, false)
  }

  /** Opened on the timer page, the popup reports the page's real connection
      state. */
  lemma OpenReportsPage(url: Option<string>, page: Page)
    requires OnTimerPage(url)
    ensures Open(url, Some(CheckConnectionStatus(page))).serialConnected <==>
      page.serialManager.Some? && page.serialManager.value.isConnected
  {
  }

  // ---------------------------------------------------------------------------
  // The timer callback
  // ---------------------------------------------------------------------------

  /** The serial callback for one reading: when the manager is connected, the
      colour's message is written; a failed write is swallowed. Returns the
      bytes that reached the port. `sink` is the outcome of the port's write. */
  function OnTimerChange(page: Page, color: string, sink: Outcome): (sent: Option<seq<Byte>>)
    ensures sent.Some? ==> page.serialManager.Some? && page.serialManager.value.isConnected
    ensures sent.Some? ==> sent.value == Utf8Encode(Codec.ColorMessage(color))
    ensures sent.Some? <==> page.serialManager.Some? && Serial.Writable(page.serialManager.value) && sink.Pass?
  {
    match page.serialManager
    case None => None
    case Some(m) =>
      if !m.isConnected then None
      else match Serial.Write(m, StringData(Codec.ColorMessage(color)), sink)
        case Ok(bytes) => Some(bytes)
        case Err(_) => None
  }

  /** Every callback invocation of a step, in order, each with the outcome
      of its write: what each one sent, if anything. */
  function Deliver(page: Page, ds: seq<Monitor.Delivery<Hook>>, sinks: seq<Outcome>): (sent: seq<Option<seq<Byte>>>)
    requires |sinks| == |ds|
    ensures |sent| == |ds|
    ensures forall i :: 0 <= i < |ds| && sent[i].Some? ==> sent[i].value == Utf8Encode(Codec.ColorMessage(ds[i].snapshot.color))
    ensures forall i :: 0 <= i < |ds| ==> (sent[i].Some? <==> CheckConnectionStatus(page) && Serial.Writable(page.serialManager.value) && sinks[i].Pass?)
  {
    seq(|ds|, i requires 0 <= i < |ds| => OnTimerChange(page, ds[i].snapshot.color, sinks[i]))
  }

  /** The bytes of a colour message are its characters, one byte each: what
      the device reads is the triplet and a newline. */
  lemma MessageChars(color: string)
    ensures AsciiChars(Utf8Encode(Codec.ColorMessage(color))) == Codec.ColorToTriplet(color) + "\n"
  {
    var msg := Codec.ColorMessage(color);
    var t := Codec.ColorToTriplet(color);
    assert msg == t + "\n";
    Codec.TripletHasNoNewline(t);
    assert IsAscii(msg);
    AsciiEncoding(msg);
  }

  /** A device that has nothing buffered reads a colour message as one line
      and sets the strip to the triplet's three numbers, dimmed. */
  lemma ColorReachesStrip(color: string, d: Device.Device, intOf: string -> Option<int>)
    requires d.buffer == []
    ensures var parts := Split(Codec.ColorToTriplet(color), ',');
      var e := Device.Feed(d, AsciiChars(Utf8Encode(Codec.ColorMessage(color))), intOf);
      && |parts| == 3
      && e.buffer == []
      && e.led == !d.led
      && e.pixels == Device.SetColor(Device.Rgb(DecimalValue(parts[0]), DecimalValue(parts[1]), DecimalValue(parts[2])))
  {
    var t := Codec.ColorToTriplet(color);
    MessageChars(color);
    Codec.TripletHasNoNewline(t);
    Device.NumeralLineReceived(d, t, intOf);
  }

  /** End to end for a CSS colour `rgb(r, g, b)` (or any colour written with
      three numbers after a digit-free prefix): the strip shows a tenth of
      each number. */
  lemma CssColorReachesStrip(prefix: string, r: string, g: string, b: string, tail: string,
                             d: Device.Device, intOf: string -> Option<int>)
    requires forall i :: 0 <= i < |prefix| ==> !IsDigit(prefix[i])
    requires IsNumeral(r) && IsNumeral(g) && IsNumeral(b)
    requires tail == [] || !IsDigit(tail[0])
    requires d.buffer == []
    ensures Device.Feed(d, AsciiChars(Utf8Encode(Codec.ColorMessage(Codec.CssColor(prefix, r, g, b, tail)))), intOf).pixels
      == Device.SetColor(Device.Rgb(DecimalValue(r), DecimalValue(g), DecimalValue(b)))
  {
    var color := Codec.CssColor(prefix, r, g, b, tail);
    Codec.CssColorTriplet(prefix, r, g, b, tail);
    ColorReachesStrip(color, d, intOf);
  }

  // ---------------------------------------------------------------------------
  // Connecting
  // ---------------------------------------------------------------------------

  /** The manager `connectToSerial` creates: no ids, an empty filter list,
      9600 baud, a 5000 ms timeout, logging on. */
  function PopupOptions(): Serial.SerialOptionsIn {
    Serial.SerialOptionsIn(None, None, None, None, Some([]), Some(9600), None, None, None, None, None, Some(5000), Some(true))
  }

  /** `connectToSerial` as written: once connected it calls
      `manager.startReadLoop()`, which `WebSerialManager` does not define; the
      `TypeError` lands in the promise's `catch`, so the callback is never
      installed and the user is told the connection failed although the port
      is open. */
  function ConnectAsWritten(page: Page, p: Serial.SerialPlatform): (r: Page)
    ensures r.timerMonitor == page.timerMonitor && r.dom == page.dom
    ensures !p.supported ==> r == page.(alerts := page.alerts + [Unsupported])
    ensures p.supported ==> r.serialManager == Some(Serial.Connect(Serial.New(PopupOptions()), None, p).manager)
    ensures p.supported ==> |r.alerts| == |page.alerts| + 1 && r.alerts[..|page.alerts|] == page.alerts
    ensures p.supported ==> ConnectionFailed <= r.alerts[|page.alerts|]
  {
    if !p.supported then page.(alerts := page.alerts + [Unsupported])
    else
      var c := Serial.Connect(Serial.New(PopupOptions()), None, p);
      var page' := page.(serialManager := Some(c.manager));
      match c.result
      case Err(e) => page'.(alerts := page.alerts + [ConnectionFailed + e])
      case Ok(_) => page'.(alerts := page.alerts + [ConnectionFailed + NoStartReadLoop])
  }

  /** As written, a successful connection leaves the port open but never
      installs the callback: no timer change is ever sent. */
  lemma ConnectAsWrittenNeverStreams(page: Page, p: Serial.SerialPlatform)
    requires page.timerMonitor.Some? && page.timerMonitor.value.callback.None?
    requires Serial.Connect(Serial.New(PopupOptions()), None, p).result.Ok?
    ensures CheckConnectionStatus(ConnectAsWritten(page, p))
    ensures ConnectAsWritten(page, p).timerMonitor.value.callback.None?
    ensures ConnectAsWritten(page, p).alerts == page.alerts + [ConnectionFailed + NoStartReadLoop]
  {
  }

  /** The page after a connection attempt and the bytes sent by the callback
      firing at once. */
  datatype Connection = Connection(page: Page, sent: seq<Option<seq<Byte>>>)

  /** `connectToSerial` with the read-loop call left out, as its comment and
      the rest of the page evidently intend: after connecting, the serial
      callback is installed on the timer monitor (which may hand it the last
      reading at once), and the user is told the device is connected. `sink`
      is the outcome of that immediate write. */
  function Connect(page: Page, p: Serial.SerialPlatform, sink: Outcome): (c: Connection)
    requires Valid(page)
    ensures Valid(c.page) && c.page.dom == page.dom
    ensures !p.supported ==> c == Connection(page.(alerts := page.alerts + [Unsupported]), [])
    ensures p.supported ==> c.page.serialManager == Some(Serial.Connect(Serial.New(PopupOptions()), None, p).manager)
    ensures p.supported && Serial.Connect(Serial.New(PopupOptions()), None, p).result.Err? ==>
      c.page.timerMonitor == page.timerMonitor && c.sent == []
      && c.page.alerts == page.alerts + [ConnectionFailed + Serial.Connect(Serial.New(PopupOptions()), None, p).result.message]
    ensures Serial.Connect(Serial.New(PopupOptions()), None, p).result.Ok? ==>
      c.page.alerts == page.alerts + [Connected]
      && (page.timerMonitor.Some? ==> c.page.timerMonitor == Some(page.timerMonitor.value.(callback := Some(ColorToSerial))))
      && (page.timerMonitor.None? ==> c.page.timerMonitor.None?)
    ensures |c.sent| <= 1
    ensures |c.sent| == 1 ==> page.timerMonitor.Some? && page.timerMonitor.value.lastTimerValue.Some?
  {
    if !p.supported then Connection(page.(alerts := page.alerts + [Unsupported]), [])
    else
      var conn := Serial.Connect(Serial.New(PopupOptions()), None, p);
      var page' := page.(serialManager := Some(conn.manager));
      match conn.result
      case Err(e) => Connection(page'.(alerts := page.alerts + [ConnectionFailed + e]), [])
      case Ok(_) =>
        match page.timerMonitor
        case None => Connection(page'.(alerts := page.alerts + [Connected]), [])
        case Some(tm) =>
          var step := Monitor.SetTimerChangeCallback(tm, Some(ColorToSerial), page.dom);
          var installed := page'.(timerMonitor := Some(step.monitor), alerts := page.alerts + [Connected]);
          Connection(installed, Deliver(installed, step.delivered, seq(|step.delivered|, _ => sink)))
  }

  /** Once connected, every later timer change the monitor notices reaches the
      port: the callback is installed, and with a writable port its write
      carries the colour's message. */
  lemma ConnectStreams(page: Page, p: Serial.SerialPlatform, sink: Outcome, now: Monitor.Snapshot, later: Outcome)
    requires Valid(page) && page.timerMonitor.Some?
    requires Serial.Connect(Serial.New(PopupOptions()), None, p).result.Ok?
    requires !Monitor.Remembers(Connect(page, p, sink).page.timerMonitor.value, now)
    requires Serial.Writable(Connect(page, p, sink).page.serialManager.value) && later.Pass?
    ensures var c := Connect(page, p, sink);
      var step := Monitor.Check(c.page.timerMonitor.value, now);
      && step.delivered == [Monitor.Delivery(ColorToSerial, now)]
      && Deliver(c.page, step.delivered, [later]) == [Some(Utf8Encode(Codec.ColorMessage(now.color)))]
  {
    var c := Connect(page, p, sink);
    var step := Monitor.Check(c.page.timerMonitor.value, now);
    assert step.delivered[1..] == [];
  }

  // ---------------------------------------------------------------------------
  // Disconnecting
  // ---------------------------------------------------------------------------

  /** `disconnectFromSerial` as written: it first calls
      `manager.stopReadLoop()`, which `WebSerialManager` does not define, so
      with a manager present it throws before anything else happens. `Fail`
      is the exception escaping the injected function. */
  function DisconnectAsWritten(page: Page): (r: Settled<Page>)
    ensures page.serialManager.None? ==> r == Settled(page.(alerts := page.alerts + [NoDevice]), Pass)
    ensures page.serialManager.Some? ==> r == Settled(page, Fail(NoStopReadLoop))
  {
    if page.serialManager.None? then Settled(page.(alerts := page.alerts + [NoDevice]), Pass)
    else Settled(page, Fail(NoStopReadLoop))
  }

  /** As written, disconnecting a connected page leaves the port open and the
      callback installed. */
  lemma DisconnectAsWrittenKeepsPort(page: Page)
    requires CheckConnectionStatus(page)
    ensures CheckConnectionStatus(DisconnectAsWritten(page).state)
    ensures DisconnectAsWritten(page).state.timerMonitor == page.timerMonitor
  {
  }

  /** `disconnectFromSerial` without the read-loop call: the manager is
      disconnected, then the timer callback is removed and the manager
      dropped; a failed disconnect is reported and changes nothing else.
      `close` is the outcome of closing the port. */
  function Disconnect(page: Page, close: Outcome): (r: Page)
    requires Valid(page)
    ensures Valid(r) && r.dom == page.dom
    ensures page.serialManager.None? ==> r == page.(alerts := page.alerts + [NoDevice])
    ensures page.serialManager.Some? && Serial.Disconnect(page.serialManager.value, close).outcome.Fail? ==>
      r == page.(alerts := page.alerts + [DisconnectFailedAlert + Serial.Disconnect(page.serialManager.value, close).outcome.message])
    ensures page.serialManager.Some? && Serial.Disconnect(page.serialManager.value, close).outcome.Pass? ==>
      && r.serialManager.None?
      && r.alerts == page.alerts + [Disconnected]
      && (page.timerMonitor.Some? ==> r.timerMonitor == Some(page.timerMonitor.value.(callback := None)))
      && (page.timerMonitor.None? ==> r.timerMonitor.None?)
  {
    match page.serialManager
    case None => page.(alerts := page.alerts + [NoDevice])
    case Some(m) =>
      var d := Serial.Disconnect(m, close);
      match d.outcome
      case Fail(e) => page.(serialManager := Some(d.state), alerts := page.alerts + [DisconnectFailedAlert + e])
      case Pass =>
        var monitor := match page.timerMonitor
          case None => None
          case Some(tm) => Some(Monitor.SetTimerChangeCallback(tm, None, page.dom).monitor);
        page.(serialManager := None, timerMonitor := monitor, alerts := page.alerts + [Disconnected])
  }

  /** After a clean disconnect nothing is streamed: the monitor has no
      callback to invoke and the page no connection to write to. */
  lemma DisconnectStopsStreaming(page: Page, close: Outcome, now: Monitor.Snapshot, sink: Outcome)
    requires Valid(page) && page.timerMonitor.Some?
    requires page.serialManager.Some? && Serial.Disconnect(page.serialManager.value, close).outcome.Pass?
    ensures Monitor.Check(Disconnect(page, close).timerMonitor.value, now).delivered == []
    ensures OnTimerChange(Disconnect(page, close), now.color, sink).None?
    ensures !CheckConnectionStatus(Disconnect(page, close))
  {
  }

  // ---------------------------------------------------------------------------
  // The toggle
  // ---------------------------------------------------------------------------

  /** A click on the serial toggle: disconnect when the popup believes the
      device is connected, connect otherwise, and flip the flag at once
      without waiting for the outcome. */
  function Toggle(ui: Ui, page: Page, p: Serial.SerialPlatform, close: Outcome, sink: Outcome): (r: (Ui, Page))
    requires Valid(page)
    ensures r.0 == ui.(serialConnected := !ui.serialConnected)
    ensures Valid(r.1)
    ensures ui.serialConnected ==> r.1 == Disconnect(page, close)
    ensures !ui.serialConnected ==> r.1 == Connect(page, p, sink).page
  {
    if ui.serialConnected then (ui.(serialConnected := false), Disconnect(page, close))
    else (ui.(serialConnected := true), Connect(page, p, sink).page)
  }

  /** The flag is optimistic: after a failed connection the toggle reads
      "connected" while the page is not, until the popup is opened again. */
  lemma ToggleIsOptimistic(ui: Ui, page: Page, p: Serial.SerialPlatform, close: Outcome, sink: Outcome, url: Option<string>)
    requires Valid(page) && !ui.serialConnected && p.supported && p.requestPort.Err?
    ensures Toggle(ui, page, p, close, sink).0.serialConnected
    ensures !CheckConnectionStatus(Toggle(ui, page, p, close, sink).1)
    ensures OnTimerPage(url) ==>
      !Open(url, Some(CheckConnectionStatus(Toggle(ui, page, p, close, sink).1))).serialConnected
  {
  }
}
