/**
  `Response` and `Output`: a response is created for a request, declares
  output tensors, and ends with exactly one terminal native call, a send or
  a delete. The `sent` flag is the whole state machine: `send` raises it
  before calling the host, and `Drop` deletes only a response whose flag is
  still down.
 */
module Responses {
  import opened Native
  import Bridge

  type i64 = x: int | -0x8000_0000_0000_0000 <= x < 0x8000_0000_0000_0000

  /** `TRITONSERVER_RESPONSE_COMPLETE_FINAL`, the only flag `send` passes. */
  const RESPONSE_COMPLETE_FINAL: u32 := 1

  datatype Response = Response(ptr: nat, sent: bool)

  /** The native calls that end a response's life. */
  datatype TerminalCall = SendCall(response: nat, flags: u32) | DeleteCall(response: nat)

  /** The arguments of `TRITONBACKEND_ResponseOutput`. */
  datatype OutputCall = OutputCall(response: nat, name: string, dataType: u32, shape: seq<i64>, dimsCount: u32)

  /** What the host answers to each response-side native call. */
  datatype Host = Host(
    responseNew: nat -> Native<nat>,          // TRITONBACKEND_ResponseNew, by request pointer
    responseSend: nat -> ErrorPtr,            // TRITONBACKEND_ResponseSend, by response pointer
    responseDelete: nat -> ErrorPtr,          // TRITONBACKEND_ResponseDelete, by response pointer
    responseOutput: OutputCall -> Native<nat>,
    outputBuffer: (nat, u64) -> Native<nat>)  // TRITONBACKEND_OutputBuffer: base address of `size` bytes

  /** `Response::new(request)`: a fresh, unsent response, or the host's error. */
  function New(host: Host, request: nat): (r: Res<Response>)
    ensures r.Ok? <==> host.responseNew(request).Returned?
    ensures r.Ok? ==> !r.value.sent && r.value.ptr == host.responseNew(request).value
    ensures r.Err? ==> Err(r.error) == Bridge.CheckErr(host.responseNew(request).Status())
  {
    var ptr :- Bridge.Checked(host.responseNew(request));
    Ok(Response(ptr, false))
  }

  /** What dropping a response did: the native calls it made and what it logged. */
  datatype Dropped = Dropped(calls: seq<TerminalCall>, logged: seq<string>)

  const DELETE_FAILED: string := "Failed to delete response"

  /**
    `Drop for Response`: an unsent response is deleted; a sent one is left
    alone. A failed delete is logged and otherwise swallowed: dropping has
    no result to report.
   */
  function Drop(host: Host, r: Response): (d: Dropped)
    ensures d.calls == (if r.sent then [] else [DeleteCall(r.ptr)])
    ensures d.logged != [] <==> !r.sent && host.responseDelete(r.ptr).Ptr?
  {
    if r.sent then Dropped([], [])
    else
      var status := host.responseDelete(r.ptr);
      Dropped([DeleteCall(r.ptr)], if Bridge.CheckErr(status).Err? then [DELETE_FAILED] else [])
  }

  /** What `send` did: its result and every terminal call made, including the drop of `self`. */
  datatype Sent = Sent(result: Res<()>, calls: seq<TerminalCall>)

  /**
    `send(self)`: the flag goes up first, then the host is asked to send
    with the final flag, then `self` is dropped at the end of the call.
    The response is consumed, so it cannot be sent twice, and even a failed
    send counts as sent: no delete follows it.
   */
  function Send(host: Host, r: Response): (s: Sent)
    ensures s.calls == [SendCall(r.ptr, RESPONSE_COMPLETE_FINAL)]
    ensures s.result.Ok? <==> host.responseSend(r.ptr).Null?
    ensures !s.result.Panic?
    ensures s.result.Err? ==> Err(s.result.error) == Bridge.CheckErr(host.responseSend(r.ptr))
  {
    var flagged := r.(sent := true);
    var status := host.responseSend(flagged.ptr);
    var dropped := Drop(host, flagged);
    Sent(Bridge.CheckErr(status), [SendCall(flagged.ptr, RESPONSE_COMPLETE_FINAL)] + dropped.calls)
  }

  /** How a response's life ends in plugin code: sent, or let go out of scope. */
  datatype Fate = SendIt | DiscardIt

  function TerminalCalls(host: Host, r: Response, fate: Fate): seq<TerminalCall> {
    match fate
    case SendIt => Send(host, r).calls
    case DiscardIt => Drop(host, r).calls
  }

  /**
    Every response `new` creates receives exactly one terminal call,
    whichever way it ends: a send if it is sent, a delete if it is dropped.
   */
  lemma ExactlyOneTerminalCall(host: Host, request: nat, fate: Fate)
    requires New(host, request).Ok?
    ensures var r := New(host, request).value;
      var calls := TerminalCalls(host, r, fate);
      |calls| == 1 && calls[0].response == r.ptr && (calls[0].SendCall? <==> fate == SendIt)
  {
  }

  /** An output tensor handle. */
  datatype Output = Output(ptr: nat)

  /** The `u32` dimension count `output` passes: `shape.len() as u32`. */
  function DimsCount(shape: seq<i64>): (n: u32)
    ensures |shape| < U32_LIMIT ==> n == |shape|
  {
    |shape| % U32_LIMIT
  }

  /**
    `output(name, datatype, shape)`: a NUL byte in the name panics before
    the host is asked; otherwise the host declares the output with the shape
    and its length as the dimension count, or fails.
   */
  function NewOutput(host: Host, r: Response, name: string, dataType: u32, shape: seq<i64>): (o: Res<Output>)
    ensures o.Panic? <==> HasNul(name)
    ensures !HasNul(name) ==>
      var call := OutputCall(r.ptr, name, dataType, shape, DimsCount(shape));
      && (o.Ok? <==> host.responseOutput(call).Returned?)
      && (o.Ok? ==> o.value.ptr == host.responseOutput(call).value)
      && (o.Err? ==> Err(o.error) == Bridge.CheckErr(host.responseOutput(call).Status()))
  {
    if HasNul(name) then Panic(InteriorNul)
    else
      var ptr :- Bridge.Checked(host.responseOutput(OutputCall(r.ptr, name, dataType, shape, DimsCount(shape))));
      Ok(Output(ptr))
  }

  /** A mutable byte slice the plugin fills: where it starts and how long it is. */
  datatype Slice = Slice(base: nat, len: nat)

  /**
    `Output::buffer(size)`: the host allocates `size` bytes and the slice
    handed back spans exactly those `size` bytes, or the host's error.
   */
  function OutputBuffer(host: Host, o: Output, size: u64): (r: Res<Slice>)
    ensures r.Ok? <==> host.outputBuffer(o.ptr, size).Returned?
    ensures r.Ok? ==> r.value.len == size && r.value.base == host.outputBuffer(o.ptr, size).value
    ensures r.Err? ==> Err(r.error) == Bridge.CheckErr(host.outputBuffer(o.ptr, size).Status())
  {
    var base :- Bridge.Checked(host.outputBuffer(o.ptr, size));
    Ok(Slice(base, size))
  }
}
