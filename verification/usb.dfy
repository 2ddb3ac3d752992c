/** `WebUSBManager`: options merged over their defaults, connecting through the
    request/open/configure/claim sequence, releasing and closing, endpoint
    transfers, and the command/response exchange.

    The browser's `navigator.usb` and the device object are not modelled:
    every platform call becomes a parameter holding its outcome, and each
    operation reports the calls it made, in order, so that the order and the
    numbers passed can be stated. */
module Usb {
  import opened Wrappers
  import opened Text
  import opened Transport

  const DefaultTimeout := 5000
  const DefaultConfiguration := 1
  const DefaultInterface := 0
  const DefaultIn := 1
  const DefaultOut := 2

  const ConnectFailed: string := "Failed to connect to USB device: "
  const NotConnected: string := "Device not connected"
  const BadStatus: string := "Read failed with status: "
  /** The `TypeError` raised by reading `length` of a `null` filter list. */
  const NullFilters: string := "Cannot read properties of null (reading 'length')"

  /** One entry of the `filters` list handed to `requestDevice`; `None` is a key
      the filter object does not carry. */
  datatype UsbFilter = UsbFilter(vendorId: Option<int>, productId: Option<int>)

  /** The options object given to the constructor: each key absent, or
      present with a value that may be `null`. */
  datatype UsbOptionsIn = UsbOptionsIn(
    vendorId: Key<Option<int>>, productId: Key<Option<int>>,
    filters: Key<Option<seq<UsbFilter>>>, timeout: Key<Option<int>>, debug: Key<Option<bool>>)

  /** The resolved `this.options`, every field nullable because a given key
      overrides its default whatever its value. */
  datatype UsbOptions = UsbOptions(
    vendorId: Option<int>, productId: Option<int>,
    filters: Option<seq<UsbFilter>>, timeout: Option<int>, debug: Option<bool>)

  /** A USB device, reduced to its current configuration (`null` when it has
      none selected). */
  datatype UsbDevice = UsbDevice(configuration: Option<int>)

  datatype Endpoints = Endpoints(inbound: int, outbound: int)

  datatype UsbManager = UsbManager(
    device: Option<UsbDevice>, isConnected: bool,
    configuration: int, iface: int, endpoint: Endpoints, options: UsbOptions)

  /** A call the manager makes on the platform. */
  datatype UsbCall =
    | RequestDevice(filters: seq<UsbFilter>)
    | Open
    | SelectConfiguration(value: int)
    | ClaimInterface(number: int)
    | ReleaseInterface(number: int)
    | Close
    | TransferOut(endpoint: int, data: seq<Byte>)
    | TransferIn(endpoint: int, length: int)

  /** `key || fallback` followed by the spread of the options object: a given
      key keeps its value, an absent one takes the fallback. */
  function Merge<T>(key: Key<Option<T>>, fallback: Option<T>): (r: Option<T>)
    ensures key.Given? ==> r == key.value
    ensures key.Omitted? ==> r == fallback
  {
    match key
    case Given(v) => v
    case Omitted => fallback
  }

  /** The constructor: no device, configuration 1, interface 0, endpoints 1
      in and 2 out, and the options merged with the given keys winning, so a
      given `0` or `null` overrides the default. */
  function New(o: UsbOptionsIn): (m: UsbManager)
    ensures m.device.None? && !m.isConnected
    ensures m.configuration == DefaultConfiguration && m.iface == DefaultInterface
    ensures m.endpoint == Endpoints(DefaultIn, DefaultOut)
    ensures o.vendorId.Given? ==> m.options.vendorId == o.vendorId.value
    ensures o.vendorId.Omitted? ==> m.options.vendorId.None?
    ensures o.productId.Given? ==> m.options.productId == o.productId.value
    ensures o.productId.Omitted? ==> m.options.productId.None?
    ensures o.filters.Given? ==> m.options.filters == o.filters.value
    ensures o.filters.Omitted? ==> m.options.filters == Some([])
    ensures o.timeout.Given? ==> m.options.timeout == o.timeout.value
    ensures o.timeout.Omitted? ==> m.options.timeout == Some(DefaultTimeout)
  {
    UsbManager(None, false, DefaultConfiguration, DefaultInterface, Endpoints(DefaultIn, DefaultOut),
      UsbOptions(Merge(o.vendorId, None), Merge(o.productId, None), Merge(o.filters, Some([])),
        Merge(o.timeout, Some(DefaultTimeout)), Merge(o.debug, Some(false))))
  }

  /** The filter list `connect` requests with: an empty list gains exactly one
      filter, carrying only the ids that are truthy, when at least one is. */
  function AutoFilter(filters: seq<UsbFilter>, vendor: Option<int>, product: Option<int>): (r: seq<UsbFilter>)
    ensures filters <= r && |r| <= |filters| + 1
    ensures |r| == |filters| + 1 <==> |filters| == 0 && (Truthy(vendor) || Truthy(product))
    ensures |r| == 1 + |filters| ==> r[0].vendorId == (if Truthy(vendor) then vendor else None)
    ensures |r| == 1 + |filters| ==> r[0].productId == (if Truthy(product) then product else None)
  {
    if |filters| == 0 && (Truthy(vendor) || Truthy(product)) then
      [UsbFilter(if Truthy(vendor) then vendor else None, if Truthy(product) then product else None)]
    else filters
  }

  /** What the platform does during `connect`: the device the user picked (or
      the rejection), and the outcomes of opening it, selecting its
      configuration and claiming the interface. */
  datatype UsbPlatform = UsbPlatform(request: Result<UsbDevice>, open: Outcome, select: Outcome, claim: Outcome)

  /** A manager operation's new state, the platform calls it made, and how it settled. */
  datatype Exchange<T> = Exchange(manager: UsbManager, calls: seq<UsbCall>, result: Result<T>)

  /** The device-side half of `connect`, once a device has been chosen. */
  function Attach(d: UsbDevice, configuration: int, iface: int, p: UsbPlatform): (r: (seq<UsbCall>, Outcome))
    ensures r.1.Pass? <==> p.open.Pass? && (d.configuration.None? ==> p.select.Pass?) && p.claim.Pass?
    ensures r.1.Pass? ==> r.0 == [Open] + (if d.configuration.None? then [SelectConfiguration(configuration)] else []) + [ClaimInterface(iface)]
    ensures |r.0| >= 1 && r.0[0] == Open
    ensures p.open.Fail? ==> r.0 == [Open]
    ensures SelectConfiguration(configuration) in r.0 ==> p.open.Pass? && d.configuration.None?
    ensures ClaimInterface(iface) in r.0 ==> p.open.Pass? && (d.configuration.None? ==> p.select.Pass?)
  {
    if p.open.Fail? then ([Open], p.open)
    else if d.configuration.None? && p.select.Fail? then ([Open, SelectConfiguration(configuration)], p.select)
    else
      var prepared := [Open] + (if d.configuration.None? then [SelectConfiguration(configuration)] else []);
      (prepared + [ClaimInterface(iface)], p.claim)
  }

  /** `connect(filters)`. The filter list is the argument when one is given,
      else the configured list, which the automatic filter is pushed onto; a
      `null` configured list fails on its `length`. A chosen device is kept
      even when opening, configuring or claiming it fails. */
  function Connect(m: UsbManager, filters: Option<seq<UsbFilter>>, p: UsbPlatform): (c: Exchange<bool>)
    ensures filters.None? && m.options.filters.None? ==>
      c == Exchange(m.(isConnected := false), [], Err(ConnectFailed + NullFilters))
    ensures filters.Some? || m.options.filters.Some? ==>
      var list := if filters.Some? then filters.value else m.options.filters.value;
      |c.calls| >= 1 && c.calls[0] == RequestDevice(AutoFilter(list, m.options.vendorId, m.options.productId))
    ensures filters.None? && m.options.filters.Some? ==>
      c.manager.options == m.options.(filters := Some(AutoFilter(m.options.filters.value, m.options.vendorId, m.options.productId)))
    ensures filters.Some? ==> c.manager.options == m.options
    ensures c.result.Ok? <==> (filters.Some? || m.options.filters.Some?) && p.request.Ok? && Attach(p.request.value, m.configuration, m.iface, p).1.Pass?
    ensures c.result.Ok? ==> c.result.value && c.manager.isConnected && c.manager.device == Some(p.request.value)
    ensures c.result.Err? ==> !c.manager.isConnected && ConnectFailed <= c.result.message
    ensures (filters.Some? || m.options.filters.Some?) && p.request.Err? ==>
      c.manager.device == m.device && |c.calls| == 1 && c.result == Err(ConnectFailed + p.request.message)
    ensures p.request.Ok? && c.calls != [] ==> c.manager.device == Some(p.request.value)
    ensures c.manager.configuration == m.configuration && c.manager.iface == m.iface && c.manager.endpoint == m.endpoint
  {
    var list := if filters.Some? then filters else m.options.filters;
    if list.None? then Exchange(m.(isConnected := false), [], Err(ConnectFailed + NullFilters))
    else
      var requested := AutoFilter(list.value, m.options.vendorId, m.options.productId);
      // with no argument the list pushed to is `this.options.filters` itself
      var options := if filters.None? then m.options.(filters := Some(requested)) else m.options;
      var asked := [RequestDevice(requested)];
      match p.request
      case Err(e) => Exchange(m.(isConnected := false, options := options), asked, Err(ConnectFailed + e))
      case Ok(d) =>
        var (calls, outcome) := Attach(d, m.configuration, m.iface, p);
        var chosen := m.(device := Some(d), options := options);
        match outcome
        case Fail(e) => Exchange(chosen.(isConnected := false), asked + calls, Err(ConnectFailed + e))
        case Pass => Exchange(chosen.(isConnected := true), asked + calls, Ok(true))
  }

  /** A successful connection claims the configured interface, and selects the
      configured configuration exactly when the device had none. */
  lemma ConnectClaimsInterface(m: UsbManager, filters: Option<seq<UsbFilter>>, p: UsbPlatform)
    requires Connect(m, filters, p).result.Ok?
    ensures ClaimInterface(m.iface) in Connect(m, filters, p).calls
    ensures SelectConfiguration(m.configuration) in Connect(m, filters, p).calls <==> p.request.value.configuration.None?
    ensures Open in Connect(m, filters, p).calls
  {
    var calls := Connect(m, filters, p).calls;
    var list := if filters.Some? then filters.value else m.options.filters.value;
    var d := p.request.value;
    var tail := if d.configuration.None? then [SelectConfiguration(m.configuration)] else [];
    assert calls == [RequestDevice(AutoFilter(list, m.options.vendorId, m.options.productId))] + ([Open] + tail + [ClaimInterface(m.iface)]);
    assert calls[|calls| - 1] == ClaimInterface(m.iface);
  }

  /** `disconnect`: an open connection releases the interface and then closes
      the device; if either fails the manager is left as it was. Otherwise the
      device is dropped. */
  function Disconnect(m: UsbManager, release: Outcome, close: Outcome): (r: Exchange<bool>)
    ensures !(m.device.Some? && m.isConnected) ==> r == Exchange(m.(device := None, isConnected := false), [], Ok(true))
    ensures m.device.Some? && m.isConnected ==> |r.calls| >= 1 && r.calls[0] == ReleaseInterface(m.iface)
    ensures Close in r.calls ==> release.Pass?
    ensures m.device.Some? && m.isConnected && release.Pass? ==> r.calls == [ReleaseInterface(m.iface), Close]
    ensures m.device.Some? && m.isConnected && release.Fail? ==> r.calls == [ReleaseInterface(m.iface)]
    ensures r.result.Err? <==> m.device.Some? && m.isConnected && (release.Fail? || close.Fail?)
    ensures r.result.Err? ==> r.manager == m
    ensures r.result.Err? && release.Fail? ==> r.result.message == DisconnectFailed + release.message
    ensures r.result.Err? && release.Pass? ==> r.result.message == DisconnectFailed + close.message
    ensures r.result.Ok? ==> r.manager == m.(device := None, isConnected := false)
  {
    if !(m.device.Some? && m.isConnected) then Exchange(m.(device := None, isConnected := false), [], Ok(true))
    else if release.Fail? then Exchange(m, [ReleaseInterface(m.iface)], Err(DisconnectFailed + release.message))
    else if close.Fail? then Exchange(m, [ReleaseInterface(m.iface), Close], Err(DisconnectFailed + close.message))
    else Exchange(m.(device := None, isConnected := false), [ReleaseInterface(m.iface), Close], Ok(true))
  }
  /** A connection that was opened and then closed without failures releases
      the interface it claimed, closes the device and forgets it, and keeps
      the configuration so that the next `connect` behaves the same. */
  lemma ConnectThenDisconnect(m: UsbManager, filters: Option<seq<UsbFilter>>, p: UsbPlatform)
    requires Connect(m, filters, p).result.Ok?
    ensures var c := Connect(m, filters, p);
      var d := Disconnect(c.manager, Pass, Pass);
      && d.calls == [ReleaseInterface(m.iface), Close]
      && ClaimInterface(m.iface) in c.calls
      && d.result == Ok(true)
      && d.manager.device.None? && !d.manager.isConnected
      && d.manager.configuration == m.configuration && d.manager.iface == m.iface
  {
    ConnectClaimsInterface(m, filters, p);
  }


  predicate Connected(m: UsbManager) {
    m.isConnected && m.device.Some?
  }

  /** A `USBOutTransferResult`. */
  datatype OutResult = OutResult(status: string, bytesWritten: int)

  /** A `USBInTransferResult`; `data` is `None` when the result carries none. */
  datatype InResult = InResult(status: string, data: Option<seq<Byte>>)

  /** `write(data, endpoint)`: refused unless connected; the payload goes to
      the given endpoint when truthy, else to the configured out endpoint, and
      the transfer's result is returned as it is. `transfer` is the outcome
      of `transferOut`. */
  function Write(m: UsbManager, data: WriteData, endpoint: Option<int>, transfer: Result<OutResult>): (x: (Option<UsbCall>, Result<OutResult>))
    ensures !Connected(m) ==> x == (None, Err(NotConnected))
    ensures Connected(m) && data.OtherData? ==> x == (None, Err(WriteFailed + InvalidData))
    ensures x.0.Some? <==> Connected(m) && !data.OtherData?
    ensures x.0.Some? ==> x.0.value == TransferOut(OrNumber(endpoint, m.endpoint.outbound), Payload(data).value)
    ensures x.0.Some? && transfer.Ok? ==> x.1 == transfer
    ensures x.0.Some? && transfer.Err? ==> x.1 == Err(WriteFailed + transfer.message)
  {
    if !Connected(m) then (None, Err(NotConnected))
    else match Payload(data)
      case Err(e) => (None, Err(WriteFailed + e))
      case Ok(buffer) =>
        var call := TransferOut(OrNumber(endpoint, m.endpoint.outbound), buffer);
        match transfer
        case Err(e) => (Some(call), Err(WriteFailed + e))
        case Ok(result) => (Some(call), Ok(result))
  }

  /** `writeString(text, endpoint)` sends the UTF-8 encoding of `text`. */
  lemma WriteStringSendsUtf8(m: UsbManager, text: string, endpoint: Option<int>, transfer: Result<OutResult>)
    requires Connected(m)
    ensures Write(m, StringData(text), endpoint, transfer).0 == Some(TransferOut(OrNumber(endpoint, m.endpoint.outbound), Utf8Encode(text)))
  {
  }

  /** `read(length, endpoint)`: refused unless connected; the data of a
      transfer whose status is `"ok"` and which carries data, else an error
      naming the status. `transfer` is the outcome of `transferIn`. */
  function Read(m: UsbManager, length: int, endpoint: Option<int>, transfer: Result<InResult>): (x: (Option<UsbCall>, Result<seq<Byte>>))
    ensures !Connected(m) ==> x == (None, Err(NotConnected))
    ensures Connected(m) ==> x.0 == Some(TransferIn(OrNumber(endpoint, m.endpoint.inbound), length))
    ensures x.1.Ok? <==> Connected(m) && transfer.Ok? && transfer.value.status == "ok" && transfer.value.data.Some?
    ensures x.1.Ok? ==> x.1.value == transfer.value.data.value
    ensures Connected(m) && transfer.Err? ==> x.1 == Err(ReadFailed + transfer.message)
    ensures Connected(m) && transfer.Ok? && x.1.Err? ==> x.1 == Err(ReadFailed + BadStatus + transfer.value.status)
  {
    if !Connected(m) then (None, Err(NotConnected))
    else
      var call := TransferIn(OrNumber(endpoint, m.endpoint.inbound), length);
      match transfer
      case Err(e) => (Some(call), Err(ReadFailed + e))
      case Ok(result) =>
        if result.status == "ok" && result.data.Some? then (Some(call), Ok(result.data.value))
        else (Some(call), Err(ReadFailed + BadStatus + result.status))
  }

  /** `readString(length, endpoint)`: the bytes read, decoded by `decode` (the
      page's `TextDecoder`), with trailing NUL characters removed; a failed
      read rejects with the read's own message. */
  function ReadString(m: UsbManager, length: int, endpoint: Option<int>, transfer: Result<InResult>,
                      decode: seq<Byte> -> string): (s: Result<string>)
    ensures s.Ok? <==> Read(m, length, endpoint, transfer).1.Ok?
    ensures s.Err? ==> s.message == Read(m, length, endpoint, transfer).1.message
    ensures s.Ok? ==> s.value <= decode(transfer.value.data.value)
    ensures s.Ok? ==> forall i :: |s.value| <= i < |decode(transfer.value.data.value)| ==> decode(transfer.value.data.value)[i] == '\0'
    ensures s.Ok? ==> s.value == [] || s.value[|s.value| - 1] != '\0'
  {
    match Read(m, length, endpoint, transfer).1
    case Err(e) => Err(e)
    case Ok(data) => Ok(StripTrailingNul(decode(data)))
  }

  /** `sendCommand`: the command is written to the out endpoint first, and
      only a successful write issues the read, which then races a timer of
      `timeout || options.timeout` milliseconds. */
  function SendCommand(m: UsbManager, command: WriteData, responseLength: int, timeout: Option<int>,
                       sent: Result<OutResult>, received: Result<InResult>, race: Race): (x: Exchange<seq<Byte>>)
    ensures x.manager == m
    ensures Write(m, command, None, sent).1.Err? ==>
      x.calls == (if Write(m, command, None, sent).0.Some? then [Write(m, command, None, sent).0.value] else [])
      && x.result == Err(CommandFailed + Write(m, command, None, sent).1.message)
    ensures Write(m, command, None, sent).1.Ok? ==>
      x.calls == [TransferOut(m.endpoint.outbound, Payload(command).value), TransferIn(m.endpoint.inbound, responseLength)]
    ensures x.result.Ok? <==> Write(m, command, None, sent).1.Ok? && race == ResponseFirst && Read(m, responseLength, None, received).1.Ok?
    ensures x.result.Ok? ==> x.result.value == received.value.data.value
    ensures Write(m, command, None, sent).1.Ok? && race == TimerFirst ==> x.result == Err(CommandFailed + CommandTimeout)
  {
    var (wrote, written) := Write(m, command, None, sent);
    var calls := if wrote.Some? then [wrote.value] else [];
    if written.Err? then Exchange(m, calls, Settle(written, Ok([]), race))
    else
      var (read, response) := Read(m, responseLength, None, received);
      Exchange(m, calls + [read.value], Settle(written, response, race))
  }

  /** The timer `sendCommand` races the read against. */
  function CommandTimer(m: UsbManager, timeout: Option<int>): (t: Option<int>)
    ensures Truthy(timeout) ==> t == timeout
    ensures !Truthy(timeout) ==> t == m.options.timeout
  {
    OrNullable(timeout, m.options.timeout)
  }

  /** `setEndpoints`: only the endpoint numbers change. */
  function SetEndpoints(m: UsbManager, inbound: int, outbound: int): (r: UsbManager)
    ensures r.endpoint.inbound == inbound && r.endpoint.outbound == outbound
    ensures r.(endpoint := m.endpoint) == m
  {
    m.(endpoint := Endpoints(inbound, outbound))
  }

  /** `setInterface(interfaceNumber, configurationNumber = 1)`: only the
      interface and configuration numbers change. */
  function SetInterface(m: UsbManager, iface: int, configuration: Option<int>): (r: UsbManager)
    ensures r.iface == iface
    ensures configuration.Some? ==> r.configuration == configuration.value
    ensures configuration.None? ==> r.configuration == DefaultConfiguration
    ensures r.(iface := m.iface, configuration := m.configuration) == m
  {
    m.(iface := iface, configuration := configuration.GetOr(DefaultConfiguration))
  }

  /** After `setEndpoints`, a write without an explicit endpoint goes to the
      new out endpoint and a read comes from the new in endpoint. */
  lemma EndpointsTakeEffect(m: UsbManager, inbound: int, outbound: int, data: WriteData, length: int,
                            sent: Result<OutResult>, received: Result<InResult>)
    requires Connected(m) && !data.OtherData?
    ensures Write(SetEndpoints(m, inbound, outbound), data, None, sent).0.value.endpoint == outbound
    ensures Read(SetEndpoints(m, inbound, outbound), length, None, received).0.value.endpoint == inbound
  {
  }

  /** After `setInterface`, connecting claims the new interface. */
  lemma InterfaceTakesEffect(m: UsbManager, iface: int, configuration: Option<int>,
                             filters: Option<seq<UsbFilter>>, p: UsbPlatform)
    requires Connect(SetInterface(m, iface, configuration), filters, p).result.Ok?
    ensures ClaimInterface(iface) in Connect(SetInterface(m, iface, configuration), filters, p).calls
  {
    ConnectClaimsInterface(SetInterface(m, iface, configuration), filters, p);
  }
}
