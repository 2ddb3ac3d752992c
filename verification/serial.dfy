/** `WebSerialManager`: options with their defaults, the port filter built from
    vendor and product ids, connecting, disconnecting, writing, the bounded
    chunked read and the command/response exchange.

    The browser (`navigator.serial`, the port's streams) is not modelled: each
    call it would make becomes a parameter holding the outcome that call had. */
module Serial {
  import opened Wrappers
  import opened Text
  import opened Transport

  const DefaultBaudRate := 9600
  const DefaultDataBits := 8
  const DefaultStopBits := 1
  const DefaultParity: string := "none"
  const DefaultBufferSize := 255
  const DefaultFlowControl: string := "none"
  const DefaultTimeout := 5000
  /** What `read` and `readString` use when no length is given. */
  const DefaultLength := 64

  const Unsupported: string := "Web Serial API not supported in this browser"
  const ConnectFailed: string := "Failed to connect to serial device: "
  const NotWritable: string := "Device not connected or not writable"
  const NotReadable: string := "Device not connected or not readable"

  /** One entry of the `filters` list handed to `requestPort`; `None` is a key
      the filter object does not carry. */
  datatype SerialFilter = SerialFilter(usbVendorId: Option<int>, usbProductId: Option<int>)

  /** The options object given to the constructor; `None` is an absent key
      (for the ids: absent or `null`). */
  datatype SerialOptionsIn = SerialOptionsIn(
    vendorId: Option<int>, productId: Option<int>,
    usbVendorId: Option<int>, usbProductId: Option<int>,
    filters: Option<seq<SerialFilter>>,
    baudRate: Option<int>, dataBits: Option<int>, stopBits: Option<int>,
    parity: Option<string>, bufferSize: Option<int>, flowControl: Option<string>,
    timeout: Option<int>, debug: Option<bool>)

  /** The resolved `this.options`. */
  datatype SerialOptions = SerialOptions(
    usbVendorId: Option<int>, usbProductId: Option<int>,
    filters: seq<SerialFilter>,
    baudRate: int, dataBits: int, stopBits: int, parity: string,
    bufferSize: int, flowControl: string, timeout: int, debug: bool)

  /** A serial port, reduced to whether it currently exposes its two streams. */
  datatype Port = Port(readable: bool, writable: bool)

  datatype SerialManager = SerialManager(port: Option<Port>, isConnected: bool, options: SerialOptions)

  /** The constructor: no port, not connected, every option its given value or
      its default, and the explicit `usb*` id preferred over the short alias
      even when it is `0`. */
  function New(o: SerialOptionsIn): (m: SerialManager)
    ensures m.port.None? && !m.isConnected
    ensures o.usbVendorId.Some? ==> m.options.usbVendorId == o.usbVendorId
    ensures o.usbVendorId.None? ==> m.options.usbVendorId == o.vendorId
    ensures o.usbProductId.Some? ==> m.options.usbProductId == o.usbProductId
    ensures o.usbProductId.None? ==> m.options.usbProductId == o.productId
    ensures o.filters.None? ==> m.options.filters == []
    ensures o.filters.Some? ==> m.options.filters == o.filters.value
    ensures o.baudRate.None? ==> m.options.baudRate == DefaultBaudRate
    ensures o.baudRate.Some? ==> m.options.baudRate == o.baudRate.value
    ensures o.dataBits.None? ==> m.options.dataBits == DefaultDataBits
    ensures o.dataBits.Some? ==> m.options.dataBits == o.dataBits.value
    ensures o.stopBits.None? ==> m.options.stopBits == DefaultStopBits
    ensures o.stopBits.Some? ==> m.options.stopBits == o.stopBits.value
    ensures o.parity.None? ==> m.options.parity == DefaultParity
    ensures o.parity.Some? ==> m.options.parity == o.parity.value
    ensures o.bufferSize.None? ==> m.options.bufferSize == DefaultBufferSize
    ensures o.bufferSize.Some? ==> m.options.bufferSize == o.bufferSize.value
    ensures o.flowControl.None? ==> m.options.flowControl == DefaultFlowControl
    ensures o.flowControl.Some? ==> m.options.flowControl == o.flowControl.value
    ensures o.timeout.None? ==> m.options.timeout == DefaultTimeout
    ensures o.timeout.Some? ==> m.options.timeout == o.timeout.value
    ensures m.options.debug <==> o.debug == Some(true)
  {
    var vendor := if o.usbVendorId.Some? then o.usbVendorId else o.vendorId;
    var product := if o.usbProductId.Some? then o.usbProductId else o.productId;
    SerialManager(None, false, SerialOptions(
      vendor, product, o.filters.GetOr([]),
      o.baudRate.GetOr(DefaultBaudRate), o.dataBits.GetOr(DefaultDataBits),
      o.stopBits.GetOr(DefaultStopBits), o.parity.GetOr(DefaultParity),
      o.bufferSize.GetOr(DefaultBufferSize), o.flowControl.GetOr(DefaultFlowControl),
      o.timeout.GetOr(DefaultTimeout), o.debug.GetOr(false)))
  }

  /** The filter list `connect` requests with: an empty list gains exactly one
      filter, carrying only the ids that are truthy, when at least one is. */
  function AutoFilter(filters: seq<SerialFilter>, vendor: Option<int>, product: Option<int>): (r: seq<SerialFilter>)
    ensures filters <= r && |r| <= |filters| + 1
    ensures |r| == |filters| + 1 <==> |filters| == 0 && (Truthy(vendor) || Truthy(product))
    ensures |r| == 1 + |filters| ==> r[0].usbVendorId == (if Truthy(vendor) then vendor else None)
    ensures |r| == 1 + |filters| ==> r[0].usbProductId == (if Truthy(product) then product else None)
  {
    if |filters| == 0 && (Truthy(vendor) || Truthy(product)) then
      [SerialFilter(if Truthy(vendor) then vendor else None, if Truthy(product) then product else None)]
    else filters
  }

  /** What the browser does during `connect`: whether Web Serial exists, the
      port the user picked (or the rejection), and how opening it went. */
  datatype SerialPlatform = SerialPlatform(supported: bool, requestPort: Result<Port>, open: Outcome)

  /** The manager after `connect`, the filters the port was requested with
      (`None` when no request was made) and how the call settled. */
  datatype Connection = Connection(manager: SerialManager, requested: Option<seq<SerialFilter>>, result: Result<bool>)

  function Connect(m: SerialManager, filters: Option<seq<SerialFilter>>, p: SerialPlatform): (c: Connection)
    ensures !p.supported ==> c == Connection(m, None, Err(Unsupported))
    ensures p.supported ==>
      c.requested == Some(AutoFilter(filters.GetOr(m.options.filters), m.options.usbVendorId, m.options.usbProductId))
    ensures p.supported && filters.None? ==> c.manager.options == m.options.(filters := c.requested.value)
    ensures p.supported && filters.Some? ==> c.manager.options == m.options
    ensures c.result.Ok? <==> p.supported && p.requestPort.Ok? && p.open.Pass?
    ensures c.result.Ok? ==> c.result.value && c.manager.isConnected && c.manager.port == Some(p.requestPort.value)
    ensures p.supported && p.requestPort.Err? ==>
      c.manager.port == m.port && !c.manager.isConnected && c.result == Err(ConnectFailed + p.requestPort.message)
    ensures p.supported && p.requestPort.Ok? && p.open.Fail? ==>
      c.manager.port == Some(p.requestPort.value) && !c.manager.isConnected && c.result == Err(ConnectFailed + p.open.message)
  {
    if !p.supported then Connection(m, None, Err(Unsupported))
    else
      var requested := AutoFilter(filters.GetOr(m.options.filters), m.options.usbVendorId, m.options.usbProductId);
      // with no argument the list pushed to is `this.options.filters` itself
      var options := if filters.None? then m.options.(filters := requested) else m.options;
      match p.requestPort
      case Err(e) => Connection(SerialManager(m.port, false, options), Some(requested), Err(ConnectFailed + e))
      case Ok(port) =>
        match p.open
        case Fail(e) => Connection(SerialManager(Some(port), false, options), Some(requested), Err(ConnectFailed + e))
        case Pass => Connection(SerialManager(Some(port), true, options), Some(requested), Ok(true))
  }

  /** A second `connect` without filters requests with the list the first one
      stored: the automatic filter is added once, not again. */
  lemma AutoFilterAddedOnce(m: SerialManager, p: SerialPlatform, q: SerialPlatform)
    requires p.supported && q.supported
    ensures Connect(Connect(m, None, p).manager, None, q).requested == Connect(m, None, p).requested
  {
    var r := Connect(m, None, p).requested.value;
    if |m.options.filters| == 0 && (Truthy(m.options.usbVendorId) || Truthy(m.options.usbProductId)) {
      assert |r| == 1;
    }
  }

  /** `disconnect`: an open connection is closed first, and a failed close
      leaves the manager as it was; otherwise the port is dropped. `close`
      is the outcome of `port.close()`. */
  function Disconnect(m: SerialManager, close: Outcome): (s: Settled<SerialManager>)
    ensures s.outcome.Fail? <==> m.port.Some? && m.isConnected && close.Fail?
    ensures s.outcome.Fail? ==> s.state == m && s.outcome.message == DisconnectFailed + close.message
    ensures s.outcome.Pass? ==> s.state == m.(port := None, isConnected := false)
  {
    if m.port.Some? && m.isConnected && close.Fail? then Settled(m, Fail(DisconnectFailed + close.message))
    else Settled(m.(port := None, isConnected := false), Pass)
  }

  /** When there is no open connection, `disconnect` makes no platform call:
      its effect does not depend on what closing would have done. */
  lemma DisconnectIdleIgnoresPort(m: SerialManager, a: Outcome, b: Outcome)
    requires !(m.port.Some? && m.isConnected)
    ensures Disconnect(m, a) == Disconnect(m, b)
  {
  }

  /** Disconnecting a manager that has just disconnected changes nothing more. */
  lemma DisconnectIdempotent(m: SerialManager, close: Outcome, again: Outcome)
    requires Disconnect(m, close).outcome.Pass?
    ensures Disconnect(Disconnect(m, close).state, again) == Disconnect(m, close)
  {
  }

  predicate Writable(m: SerialManager) {
    m.isConnected && m.port.Some? && m.port.value.writable
  }

  predicate Readable(m: SerialManager) {
    m.isConnected && m.port.Some? && m.port.value.readable
  }

  /** `write`: refused unless connected with a writable stream; otherwise the
      payload goes to the port, `sink` being the outcome of the writer's
      `write`, and every failure, an invalid argument included, is reported
      as `"Failed to write data: ..."`. Returns the bytes handed to the port. */
  function Write(m: SerialManager, data: WriteData, sink: Outcome): (r: Result<seq<Byte>>)
    ensures !Writable(m) ==> r == Err(NotWritable)
    ensures Writable(m) && data.OtherData? ==> r == Err(WriteFailed + InvalidData)
    ensures r.Ok? <==> Writable(m) && !data.OtherData? && sink.Pass?
    ensures r.Ok? ==> Payload(data) == Ok(r.value)
    ensures Writable(m) && !data.OtherData? && sink.Fail? ==> r == Err(WriteFailed + sink.message)
  {
    if !Writable(m) then Err(NotWritable)
    else match Payload(data)
      case Err(e) => Err(WriteFailed + e)
      case Ok(buffer) => if sink.Fail? then Err(WriteFailed + sink.message) else Ok(buffer)
  }

  /** One `await reader.read()`: a chunk (any array value is truthy, even an
      empty one), a result with no value, the end of the stream, or a
      rejection. */
  datatype ReadStep = Chunk(data: seq<Byte>) | NoValue | Done | Broken(message: string)

  predicate IsStop(x: ReadStep) {
    x.Done? || x.Broken?
  }

  function DataOf(x: ReadStep): seq<Byte> {
    if x.Chunk? then x.data else []
  }

  /** Every byte the stream yields before it ends or fails. */
  function Delivered(stream: seq<ReadStep>): seq<Byte> {
    if |stream| == 0 || IsStop(stream[0]) then [] else DataOf(stream[0]) + Delivered(stream[1..])
  }

  /** The step that ends the stream, if it does. */
  function StopOf(stream: seq<ReadStep>): Option<ReadStep> {
    if |stream| == 0 then None
    else if IsStop(stream[0]) then Some(stream[0])
    else StopOf(stream[1..])
  }

  /** What `read(length)` resolves with on a readable port, stated without the
      loop: the first `length` delivered bytes, or all of them when the stream
      ends sooner, or the stream's failure when it fails before `length`
      bytes arrived. */
  function ReadSpec(stream: seq<ReadStep>, length: int): (r: Result<seq<Byte>>)
    ensures r.Ok? ==> r.value <= Delivered(stream)
    ensures r.Ok? ==> |r.value| <= if length > 0 then length else 0
    ensures r.Ok? && length > 0 ==> |r.value| == length || r.value == Delivered(stream)
    ensures r.Err? <==> length > 0 && |Delivered(stream)| < length && StopOf(stream).Some? && StopOf(stream).value.Broken?
    ensures r.Err? ==> r.message == ReadFailed + StopOf(stream).value.message
  {
    if length <= 0 then Ok([])
    else
      var d := Delivered(stream);
      if |d| >= length then Ok(d[..length])
      else match StopOf(stream)
        case Some(Broken(e)) => Err(ReadFailed + e)
        case _ => Ok(d)
  }

  function ReadResult(m: SerialManager, stream: seq<ReadStep>, length: int): Result<seq<Byte>> {
    if Readable(m) then ReadSpec(stream, length) else Err(NotReadable)
  }

  /** The chunks laid end to end. */
  function Flatten(chunks: seq<seq<Byte>>): seq<Byte> {
    if |chunks| == 0 then [] else Flatten(chunks[..|chunks| - 1]) + chunks[|chunks| - 1]
  }

  lemma {:induction false} DeliveredAppend(s: seq<ReadStep>, t: seq<ReadStep>)
    requires forall k :: 0 <= k < |s| ==> !IsStop(s[k])
    ensures Delivered(s + t) == Delivered(s) + Delivered(t)
    ensures StopOf(s + t) == StopOf(t)
    decreases |s|
  {
    if |s| > 0 {
      assert (s + t)[1..] == s[1..] + t;
      DeliveredAppend(s[1..], t);
    } else {
      assert s + t == t;
    }
  }

  lemma DeliveredStep(stream: seq<ReadStep>, i: nat)
    requires i < |stream| && !IsStop(stream[i])
    requires forall k :: 0 <= k < i ==> !IsStop(stream[k])
    ensures Delivered(stream[..i + 1]) == Delivered(stream[..i]) + DataOf(stream[i])
  {
    assert stream[..i + 1] == stream[..i] + [stream[i]];
    DeliveredAppend(stream[..i], [stream[i]]);
    assert Delivered([stream[i]]) == DataOf(stream[i]) + Delivered([stream[i]][1..]);
  }

  lemma DeliveredSplit(stream: seq<ReadStep>, i: nat)
    requires i <= |stream|
    requires forall k :: 0 <= k < i ==> !IsStop(stream[k])
    ensures Delivered(stream) == Delivered(stream[..i]) + Delivered(stream[i..])
    ensures StopOf(stream) == StopOf(stream[i..])
  {
    assert stream == stream[..i] + stream[i..];
    DeliveredAppend(stream[..i], stream[i..]);
  }

  /** A stream whose first stop is at `i` delivers exactly what precedes it. */
  lemma StopsAt(stream: seq<ReadStep>, i: nat)
    requires i < |stream| && IsStop(stream[i])
    requires forall k :: 0 <= k < i ==> !IsStop(stream[k])
    ensures Delivered(stream) == Delivered(stream[..i])
    ensures StopOf(stream) == Some(stream[i])
  {
    DeliveredSplit(stream, i);
    assert stream[i..][0] == stream[i];
  }

  /** A stream without a stop delivers all its data and never ends. */
  lemma NeverStops(stream: seq<ReadStep>)
    requires forall k :: 0 <= k < |stream| ==> !IsStop(stream[k])
    ensures Delivered(stream) == Delivered(stream[..|stream|])
    ensures StopOf(stream) == None
  {
    DeliveredSplit(stream, |stream|);
  }

  /** Once the data before step `i` covers `length` bytes, the answer is its
      first `length` bytes. */
  lemma Reached(stream: seq<ReadStep>, i: nat, length: int)
    requires i <= |stream| && 0 < length <= |Delivered(stream[..i])|
    requires forall k :: 0 <= k < i ==> !IsStop(stream[k])
    ensures ReadSpec(stream, length) == Ok(Delivered(stream[..i])[..length])
  {
    DeliveredSplit(stream, i);
    var d := Delivered(stream[..i]);
    assert (d + Delivered(stream[i..]))[..length] == d[..length];
  }

  /** Copies the chunks, one after the other, into one buffer. */
  method JoinChunks(chunks: seq<seq<Byte>>) returns (result: seq<Byte>)
    ensures result == Flatten(chunks)
  {
    result := [];
    var j := 0;
    while j < |chunks|
      invariant 0 <= j <= |chunks|
      invariant result == Flatten(chunks[..j])
    {
      assert chunks[..j + 1][..j] == chunks[..j];
      result := result + chunks[j];
      j := j + 1;
    }
    assert chunks[..j] == chunks;
  }

  /** The loop of `read`: pulls until `length` bytes have arrived or a step
      ends the stream, which `stop` then holds. */
  method Pull(stream: seq<ReadStep>, length: int) returns (chunks: seq<seq<Byte>>, pulls: nat, stop: Option<ReadStep>)
    ensures pulls <= |stream| && |chunks| <= pulls
    ensures pulls > 0 ==> 0 < length && |Delivered(stream[..pulls - 1])| < length
    ensures forall k :: 0 <= k < pulls - 1 ==> !IsStop(stream[k])
    ensures stop.Some? ==> 0 < pulls && stream[pulls - 1] == stop.value && IsStop(stop.value)
    ensures stop.Some? ==> Flatten(chunks) == Delivered(stream[..pulls - 1])
    ensures stop.None? ==> Flatten(chunks) == Delivered(stream[..pulls])
    ensures stop.None? ==> (forall k :: 0 <= k < pulls ==> !IsStop(stream[k]))
    ensures stop.None? ==> length <= |Flatten(chunks)| || pulls == |stream|
  {
    chunks := [];
    var total := 0;
    pulls := 0;
    stop := None;
    while total < length && pulls < |stream|
      invariant 0 <= pulls <= |stream| && |chunks| <= pulls
      invariant forall k :: 0 <= k < pulls ==> !IsStop(stream[k])
      invariant Flatten(chunks) == Delivered(stream[..pulls])
      invariant total == |Flatten(chunks)|
      invariant pulls > 0 ==> 0 < length && |Delivered(stream[..pulls - 1])| < length
      decreases |stream| - pulls
    {
      var step := stream[pulls];
      if IsStop(step) {
        stop := Some(step);
        pulls := pulls + 1;
        return;
      }
      DeliveredStep(stream, pulls);
      pulls := pulls + 1;
      if step.Chunk? {
        assert (chunks + [step.data])[..|chunks|] == chunks;
        chunks := chunks + [step.data];
        total := total + |step.data|;
        if total >= length {
          break;
        }
      }
    }
  }

  /** `read(length)`: pulls from the stream until `length` bytes have arrived,
      the stream ends, or it fails, then joins the chunks and cuts them to
      `length`. `pulls` counts the reads made: the loop never reads past the
      step that satisfied it, and every step before that last one was data. */
  method Read(m: SerialManager, stream: seq<ReadStep>, length: int) returns (r: Result<seq<Byte>>, pulls: nat)
    ensures r == ReadResult(m, stream, length)
    ensures pulls <= |stream|
    ensures !Readable(m) ==> pulls == 0
    ensures forall k :: 0 <= k < pulls - 1 ==> !IsStop(stream[k])
    ensures pulls > 0 ==> |Delivered(stream[..pulls - 1])| < length
  {
    if !Readable(m) {
      return Err(NotReadable), 0;
    }
    var chunks, stop;
    chunks, pulls, stop := Pull(stream, length);
    if stop.Some? {
      StopsAt(stream, pulls - 1);
      if stop.value.Broken? {
        return Err(ReadFailed + stop.value.message), pulls;
      }
    }
    var result := JoinChunks(chunks);
    if stop.Some? {
      // the stream ended before `length` bytes: everything it delivered is kept
      assert ReadSpec(stream, length) == Ok(result);
    } else if |result| < length {
      NeverStops(stream);
      assert ReadSpec(stream, length) == Ok(result);
    } else if length > 0 {
      Reached(stream, pulls, length);
      assert |result| == length ==> result[..length] == result;
    }
    if |chunks| == 0 {
      return Ok([]), pulls;
    }
    r := if |result| > length then Ok(result[..length]) else Ok(result);
  }

  /** `readString(length)`: the bytes read, decoded by `decode` (the page's
      `TextDecoder`), with trailing NUL characters removed; a failed read
      rejects with the read's own message. */
  method ReadString(m: SerialManager, stream: seq<ReadStep>, length: int, decode: seq<Byte> -> string)
    returns (s: Result<string>)
    ensures s.Ok? <==> ReadResult(m, stream, length).Ok?
    ensures s.Err? ==> s.message == ReadResult(m, stream, length).message
    ensures s.Ok? ==> s.value <= decode(ReadResult(m, stream, length).value)
    ensures s.Ok? ==> forall i :: |s.value| <= i < |decode(ReadResult(m, stream, length).value)| ==>
      decode(ReadResult(m, stream, length).value)[i] == '\0'
    ensures s.Ok? ==> s.value == [] || s.value[|s.value| - 1] != '\0'
  {
    var data, _ := Read(m, stream, length);
    if data.Err? {
      return Err(data.message);
    }
    var text := decode(data.value);
    var stripped := StripTrailingNul(text);
    s := Ok(stripped);
  }

  /** `sendCommand`: the command is written first, and only a successful
      write starts the read; the read then races a timer of `timeoutMs`
      milliseconds (the argument when truthy, else the configured timeout).
      `race` says which settled first. */
  method SendCommand(m: SerialManager, command: WriteData, sink: Outcome, stream: seq<ReadStep>,
                     responseLength: int, timeout: Option<int>, race: Race)
    returns (r: Result<seq<Byte>>, timeoutMs: int, readStarted: bool)
    ensures timeoutMs == if Truthy(timeout) then timeout.value else m.options.timeout
    ensures readStarted <==> Write(m, command, sink).Ok?
    ensures r.Ok? ==> readStarted && race == ResponseFirst && r == ReadResult(m, stream, responseLength)
    ensures !readStarted ==> r == Err(CommandFailed + Write(m, command, sink).message)
    ensures readStarted && race == TimerFirst ==> r == Err(CommandFailed + CommandTimeout)
    ensures readStarted && race == ResponseFirst && ReadResult(m, stream, responseLength).Err? ==>
      r == Err(CommandFailed + ReadResult(m, stream, responseLength).message)
  {
    timeoutMs := OrNumber(timeout, m.options.timeout);
    var written := Write(m, command, sink);
    readStarted := written.Ok?;
    if !readStarted {
      return Settle(written, Ok([]), race), timeoutMs, readStarted;
    }
    var response, _ := Read(m, stream, responseLength);
    r := Settle(written, response, race);
  }
}
