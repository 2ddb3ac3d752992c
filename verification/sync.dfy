/** `TimerUsbSync`: a periodic task that sends the timer's text to a USB device
    as `TIME:<text>\n`, only when the text changed since the last successful
    send.

    `setInterval` is modelled by numbering the intervals it hands out
    (`nextId`); `running` holds those not yet cleared, and `syncInterval` the
    one the object remembers. What a running interval does on each period is
    `Fire`. */
module UsbSync {
  import opened Wrappers
  import opened Text
  import opened Transport
  import Usb
  import Monitor

  const SyncVendorId := 0x2341
  const NotConnected: string := "USB device not connected"
  const DefaultIntervalMs := 1000

  datatype Sync = Sync(
    manager: Option<Usb.UsbManager>,
    syncInterval: Option<nat>,
    running: set<nat>,
    nextId: nat,
    lastTimerValue: Option<string>)

  /** Interval ids are positive and every one in use was handed out already. */
  predicate Valid(s: Sync) {
    && 0 < s.nextId
    && (forall id :: id in s.running ==> 0 < id < s.nextId)
    && (s.syncInterval.Some? ==> 0 < s.syncInterval.value < s.nextId)
  }

  /** The constructor. */
  function New(): (s: Sync)
    ensures Valid(s) && s.manager.None? && s.running == {} && s.lastTimerValue.None?
  {
    Sync(None, None, {}, 1, None)
  }

  /** The options `connect` creates its manager with. */
  function SyncOptions(): Usb.UsbOptionsIn {
    Usb.UsbOptionsIn(Given(Some(SyncVendorId)), Omitted, Omitted, Omitted, Given(Some(true)))
  }

  /** `connect`: a new manager for vendor 0x2341 replaces the old one, and is
      connected with its own (empty) filter list. */
  function Connect(s: Sync, p: Usb.UsbPlatform): (r: (Sync, Usb.Exchange<bool>))
    ensures r.0 == s.(manager := Some(r.1.manager))
    ensures r.1.result.Ok? <==> r.1.manager.isConnected
    ensures r.1.manager.options.vendorId == Some(SyncVendorId) && r.1.manager.options.productId.None?
    ensures |r.1.calls| >= 1 && r.1.calls[0] == Usb.RequestDevice([Usb.UsbFilter(Some(SyncVendorId), None)])
    ensures r.1.result.Ok? <==> p.request.Ok? && Usb.Attach(p.request.value, Usb.DefaultConfiguration, Usb.DefaultInterface, p).1.Pass?
  {
    var c := Usb.Connect(Usb.New(SyncOptions()), None, p);
    (s.(manager := Some(c.manager)), c)
  }

  predicate Connected(s: Sync) {
    s.manager.Some? && s.manager.value.isConnected
  }

  /** `startSync`: refused unless the manager is connected; otherwise a new
      interval starts and becomes the remembered one. An interval remembered
      before is neither cleared nor remembered any more. */
  function StartSync(s: Sync): (r: Result<Sync>)
    ensures r.Err? <==> !Connected(s)
    ensures r.Err? ==> r.message == NotConnected
    ensures Valid(s) && r.Ok? ==> Valid(r.value)
    ensures r.Ok? ==> r.value.syncInterval == Some(s.nextId)
    ensures Valid(s) ==> s.nextId !in s.running
    ensures r.Ok? ==> r.value.running == s.running + {s.nextId}
    ensures r.Ok? ==> r.value.manager == s.manager && r.value.lastTimerValue == s.lastTimerValue
  {
    if !Connected(s) then Err(NotConnected)
    else Ok(s.(syncInterval := Some(s.nextId), running := s.running + {s.nextId}, nextId := s.nextId + 1))
  }

  /** `stopSync`: clears the remembered interval, if there is one, and forgets it. */
  function StopSync(s: Sync): (r: Sync)
    ensures r.syncInterval.None?
    ensures s.syncInterval.Some? ==> r.running == s.running - {s.syncInterval.value}
    ensures s.syncInterval.None? ==> r.running == s.running
    ensures r.(syncInterval := s.syncInterval, running := s.running) == s
    ensures Valid(s) ==> Valid(r)
  {
    match s.syncInterval
    case Some(id) => s.(syncInterval := None, running := s.running - {id})
    case None => s
  }

  lemma StopSyncIdempotent(s: Sync)
    ensures StopSync(StopSync(s)) == StopSync(s)
  {
  }

  /** The line sent for a timer text. */
  function TimeMessage(text: string): (msg: string)
    ensures |msg| == |text| + 6
    ensures msg[..5] == "TIME:" && msg[5..|msg| - 1] == text && msg[|msg| - 1] == '\n'
  {
    "TIME:" + text + "\n"
  }

  /** One period of a sync interval: the element's text (`textContent`, or
      `innerText` when that is empty) is written when it differs from the
      last text sent, and remembered only when the write succeeds. Every
      failure, a missing manager included, is swallowed. `transfer` is the
      outcome of the transfer the write would make. */
  function Tick(s: Sync, element: Monitor.Node, transfer: Result<Usb.OutResult>): (r: (Sync, Option<Usb.UsbCall>))
    ensures r.0.(lastTimerValue := s.lastTimerValue) == s
    ensures r.1.Some? <==> s.lastTimerValue != Some(Monitor.ElementText(element)) && s.manager.Some? && Usb.Connected(s.manager.value)
    ensures r.1.Some? ==> r.1.value == Usb.TransferOut(s.manager.value.endpoint.outbound, Utf8Encode(TimeMessage(Monitor.ElementText(element))))
    ensures r.0.lastTimerValue != s.lastTimerValue ==> r.1.Some? && transfer.Ok? && r.0.lastTimerValue == Some(Monitor.ElementText(element))
    ensures r.1.Some? && transfer.Ok? ==> r.0.lastTimerValue == Some(Monitor.ElementText(element))
  {
    var current := Monitor.ElementText(element);
    if s.lastTimerValue == Some(current) || s.manager.None? then (s, None)
    else
      var (call, result) := Usb.Write(s.manager.value, StringData(TimeMessage(current)), None, transfer);
      if result.Ok? then (s.(lastTimerValue := Some(current)), call) else (s, call)
  }

  /** Interval `id` firing: only an interval that has not been cleared runs. */
  function Fire(s: Sync, id: nat, element: Monitor.Node, transfer: Result<Usb.OutResult>): (r: (Sync, Option<Usb.UsbCall>))
    ensures id !in s.running ==> r == (s, None)
    ensures id in s.running ==> r == Tick(s, element, transfer)
  {
    if id in s.running then Tick(s, element, transfer) else (s, None)
  }

  /** After a successful send, the same text is not sent again. */
  lemma SentOnce(s: Sync, element: Monitor.Node, first: Result<Usb.OutResult>, second: Result<Usb.OutResult>)
    requires Tick(s, element, first).1.Some? && first.Ok?
    ensures Tick(Tick(s, element, first).0, element, second).1.None?
  {
  }

  /** After a failed send, the next period tries the same text again. */
  lemma FailedSendRetried(s: Sync, element: Monitor.Node, first: Result<Usb.OutResult>, second: Result<Usb.OutResult>)
    requires Tick(s, element, first).1.Some? && first.Err?
    ensures Tick(Tick(s, element, first).0, element, second).1 == Tick(s, element, first).1
  {
  }

  /** Starting twice and stopping once leaves the first interval running: it
      keeps firing, and `stopSync` can no longer reach it. */
  lemma StartSyncLeaks(s: Sync, element: Monitor.Node, transfer: Result<Usb.OutResult>)
    requires Valid(s) && Connected(s)
    ensures var once := StartSync(s).value;
      var twice := StartSync(once).value;
      && s.nextId in StopSync(twice).running
      && StopSync(StopSync(twice)).running == StopSync(twice).running
      && Fire(StopSync(twice), s.nextId, element, transfer) == Tick(StopSync(twice), element, transfer)
  {
  }

  /** All intervals running are the remembered one. */
  predicate Tidy(s: Sync) {
    forall id :: id in s.running ==> s.syncInterval == Some(id)
  }

  /** `startSync` as its `stopSync` evidently expects it: an interval already
      running is cleared before the new one starts. */
  function StartSyncFixed(s: Sync): (r: Result<Sync>)
    ensures r.Err? <==> !Connected(s)
    ensures r.Err? ==> r.message == NotConnected
    ensures r.Ok? ==> r.value.syncInterval == Some(s.nextId)
    ensures Valid(s) && Tidy(s) && r.Ok? ==> Valid(r.value) && Tidy(r.value) && r.value.running == {s.nextId}
  {
    StartSync(StopSync(s))
  }

  /** With the fixed start, one `stopSync` halts syncing however many times it
      was started: no interval fires afterwards. */
  lemma StopHaltsFixed(s: Sync, element: Monitor.Node, transfer: Result<Usb.OutResult>, id: nat)
    requires Valid(s) && Tidy(s)
    ensures Tidy(StopSync(s)) && StopSync(s).running == {}
    ensures Fire(StopSync(s), id, element, transfer) == (StopSync(s), None)
  {
    if id in StopSync(s).running {
      assert false;
    }
  }

  /** `disconnect`: syncing always stops; the manager is dropped only when it
      disconnects cleanly, and its failure is passed on. */
  function Disconnect(s: Sync, release: Outcome, close: Outcome): (r: (Sync, Result<bool>))
    ensures r.0.syncInterval.None? && r.0.running == StopSync(s).running
    ensures r.0.lastTimerValue == s.lastTimerValue
    ensures s.manager.None? ==> r == (StopSync(s), Ok(true))
    ensures r.1.Err? <==> s.manager.Some? && Usb.Disconnect(s.manager.value, release, close).result.Err?
    ensures r.1.Err? ==> r.0.manager == s.manager
    ensures r.1.Ok? ==> r.0.manager.None?
  {
    var stopped := StopSync(s);
    match s.manager
    case None => (stopped, Ok(true))
    case Some(m) =>
      var d := Usb.Disconnect(m, release, close);
      if d.result.Err? then (stopped.(manager := Some(d.manager)), d.result)
      else (stopped.(manager := None), Ok(true))
  }
}
