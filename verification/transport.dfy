/** Pieces the serial and the USB transport managers share word for word:
    turning the argument of `write` into bytes, JavaScript truthiness of an
    optional number, the timeout fallback of `sendCommand`, and how the
    command/response race settles. */
module Transport {
  import opened Wrappers
  import opened Text

  /** The argument of `write`: a string, an array of numbers, a `Uint8Array`,
      or a value of any other type. */
  datatype WriteData = StringData(s: string) | ArrayData(xs: seq<int>) | BytesData(bs: seq<Byte>) | OtherData

  /** A state change together with how the call settled. */
  datatype Settled<S> = Settled(state: S, outcome: Outcome)

  const InvalidData: string := "Invalid data type. Use string, array, or Uint8Array"
  const WriteFailed: string := "Failed to write data: "
  const ReadFailed: string := "Failed to read data: "
  const CommandFailed: string := "Command failed: "
  const CommandTimeout: string := "Command timeout"
  const DisconnectFailed: string := "Failed to disconnect: "

  /** JavaScript truthiness of a number that may be `null`: `null` and `0` are falsy. */
  predicate Truthy(x: Option<int>) {
    x.Some? && x.value != 0
  }

  /** The conversion `new Uint8Array([x])` applies to an integer element. */
  function ToUint8(x: int): (b: Byte)
    ensures 0 <= x < 256 ==> b == x
    ensures (b - x) % 256 == 0
  {
    x % 256
  }

  /** `new Uint8Array(xs)` for an array of integers. */
  function ToBytes(xs: seq<int>): (bs: seq<Byte>)
    ensures |bs| == |xs|
    ensures forall i :: 0 <= i < |xs| ==> bs[i] == ToUint8(xs[i])
  {
    if |xs| == 0 then [] else [ToUint8(xs[0])] + ToBytes(xs[1..])
  }

  /** The buffer `write` hands to the platform: a string is UTF-8 encoded, an
      array is converted element by element, a `Uint8Array` is passed as it is,
      and anything else is refused. */
  function Payload(data: WriteData): (r: Result<seq<Byte>>)
    ensures r.Err? <==> data.OtherData?
    ensures r.Err? ==> r.message == InvalidData
    ensures data.StringData? ==> r.value == Utf8Encode(data.s)
    ensures data.BytesData? ==> r.value == data.bs
    ensures data.ArrayData? ==> |r.value| == |data.xs|
    ensures data.ArrayData? ==> forall i :: 0 <= i < |data.xs| ==> (r.value[i] - data.xs[i]) % 256 == 0
  {
    match data
    case StringData(s) => Ok(Utf8Encode(s))
    case ArrayData(xs) => Ok(ToBytes(xs))
    case BytesData(bs) => Ok(bs)
    case OtherData => Err(InvalidData)
  }

  /** An array whose elements are already bytes is sent unchanged. */
  lemma ByteArrayUnchanged(xs: seq<int>)
    requires forall i :: 0 <= i < |xs| ==> 0 <= xs[i] < 256
    ensures Payload(ArrayData(xs)) == Ok(xs)
  {
    assert ToBytes(xs) == xs;
  }

  /** `x || fallback` for a nullable number and a fallback that may itself
      be `null`: a `null` or `0` argument falls back. */
  function OrNullable(x: Option<int>, fallback: Option<int>): (r: Option<int>)
    ensures Truthy(x) ==> r == x
    ensures !Truthy(x) ==> r == fallback
  {
    if Truthy(x) then x else fallback
  }

  /** `x || fallback` with a number as fallback. */
  function OrNumber(x: Option<int>, fallback: int): (r: int)
    ensures Truthy(x) ==> r == x.value
    ensures !Truthy(x) ==> r == fallback
  {
    if Truthy(x) then x.value else fallback
  }

  /** Which promise settles first in `Promise.race([response, timer])`. */
  datatype Race = ResponseFirst | TimerFirst

  /** How `sendCommand` settles once the write has run and the read has been
      started: the write's failure, the timer, or the read's own result, every
      error wrapped as `"Command failed: ..."`. */
  function Settle<W>(written: Result<W>, response: Result<seq<Byte>>, race: Race): (r: Result<seq<Byte>>)
    ensures r.Ok? <==> written.Ok? && race == ResponseFirst && response.Ok?
    ensures r.Ok? ==> r.value == response.value
    ensures written.Err? ==> r == Err(CommandFailed + written.message)
    ensures written.Ok? && race == TimerFirst ==> r == Err(CommandFailed + CommandTimeout)
    ensures written.Ok? && race == ResponseFirst && response.Err? ==> r == Err(CommandFailed + response.message)
  {
    match (written, race, response)
    case (Err(e), _, _) => Err(CommandFailed + e)
    case (_, TimerFirst, _) => Err(CommandFailed + CommandTimeout)
    case (_, _, Err(e)) => Err(CommandFailed + e)
    case (_, _, Ok(v)) => Ok(v)
  }
}
