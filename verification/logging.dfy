/**
  The `tracing` bridge: a `tracing` event is forwarded to the host's log
  only when the host reports its level as enabled. Levels are mapped in two
  steps, `tracing::Level` to the crate's `TritonLogLevel` to the native
  `TRITONSERVER_LogLevel` constant.
 */
module Logging {
  import Native

  type i32 = x: int | -0x8000_0000 <= x < 0x8000_0000

  /** `tracing::Level`. */
  datatype Level = TRACE | DEBUG | INFO | WARN | ERROR

  /** The crate's `TritonLogLevel`. */
  datatype TritonLogLevel = Verbose | Info | Warning | Error

  /** The `TRITONSERVER_LogLevel` constants of the server API header. */
  const LOG_INFO: Native.u32 := 0
  const LOG_WARN: Native.u32 := 1
  const LOG_ERROR: Native.u32 := 2
  const LOG_VERBOSE: Native.u32 := 3

  /** Severity of a `tracing` level, least severe first. */
  function LevelRank(l: Level): nat {
    match l
    case TRACE => 0
    case DEBUG => 1
    case INFO => 2
    case WARN => 3
    case ERROR => 4
  }

  /** Severity of a host log level, least severe first. */
  function TritonRank(t: TritonLogLevel): nat {
    match t
    case Verbose => 0
    case Info => 1
    case Warning => 2
    case Error => 3
  }

  /**
    `From<tracing::Level>`: the three upper levels map one to one and the
    two lowest, DEBUG and TRACE, both become Verbose.
   */
  function FromTracing(l: Level): (t: TritonLogLevel)
    ensures TritonRank(t) == if LevelRank(l) == 0 then 0 else LevelRank(l) - 1
  {
    match l
    case ERROR => Error
    case WARN => Warning
    case DEBUG => Verbose
    case INFO => Info
    case TRACE => Verbose
  }

  /** The host level a native constant denotes, if any. */
  function FromNative(n: Native.u32): Native.Option<TritonLogLevel> {
    if n == LOG_INFO then Native.Some(Info)
    else if n == LOG_WARN then Native.Some(Warning)
    else if n == LOG_ERROR then Native.Some(Error)
    else if n == LOG_VERBOSE then Native.Some(Verbose)
    else Native.None
  }

  /** `From<TritonLogLevel>`: each level to the native constant of the same meaning. */
  function ToNative(t: TritonLogLevel): (n: Native.u32)
    ensures FromNative(n) == Native.Some(t)
  {
    match t
    case Error => LOG_ERROR
    case Warning => LOG_WARN
    case Verbose => LOG_VERBOSE
    case Info => LOG_INFO
  }

  /** The four levels reach four distinct native constants. */
  lemma ToNativeInjective(a: TritonLogLevel, b: TritonLogLevel)
    requires ToNative(a) == ToNative(b)
    ensures a == b
  {
    assert FromNative(ToNative(a)) == Native.Some(a);
  }

  /** The level mapping never reorders severities. */
  lemma FromTracingMonotone(a: Level, b: Level)
    requires LevelRank(a) <= LevelRank(b)
    ensures TritonRank(FromTracing(a)) <= TritonRank(FromTracing(b))
  {
  }

  /** What `on_event` reads from an event's metadata. */
  datatype Metadata = Metadata(level: Level, target: string, file: Native.Option<string>, line: Native.Option<Native.u32>)

  /** One `TRITONSERVER_LogMessage` call. */
  datatype LogMessage = LogMessage(level: Native.u32, file: string, line: i32, message: string)

  /** `x as i32` for a `u32`: values from 2^31 up wrap to negative. */
  function AsI32(x: Native.u32): (r: i32)
    ensures (r - x) % Native.U32_LIMIT == 0
  {
    if x < 0x8000_0000 then x else x - Native.U32_LIMIT
  }

  /**
    `on_event`: the host is asked whether the event's mapped level is
    enabled; if not, nothing is emitted. Otherwise the file falls back to
    the event's target and the line to 0, and the message is emitted with
    them. `message` is the event's rendered text. A NUL byte in the file
    name or the text panics in `CString::new(..).unwrap()`.
   */
  function OnEvent(event: Metadata, message: string, enabled: Native.u32 -> bool): (r: Native.Res<Native.Option<LogMessage>>)
    ensures !r.Err?
    ensures !enabled(ToNative(FromTracing(event.level))) ==> r == Native.Ok(Native.None)
    ensures r.Panic? <==>
      enabled(ToNative(FromTracing(event.level))) &&
      (Native.HasNul(event.file.GetOr(event.target)) || Native.HasNul(message))
    ensures r.Ok? ==> (r.value.Some? <==> enabled(ToNative(FromTracing(event.level))))
    ensures r.Ok? && r.value.Some? ==>
      && FromNative(r.value.value.level) == Native.Some(FromTracing(event.level))
      && r.value.value.file == event.file.GetOr(event.target)
      && (r.value.value.line - event.line.GetOr(0)) % Native.U32_LIMIT == 0
      && r.value.value.message == message
  {
    var level := ToNative(FromTracing(event.level));
    if !enabled(level) then Native.Ok(Native.None)
    else
      var filename := event.file.GetOr(event.target);
      var line := AsI32(event.line.GetOr(0));
      if Native.HasNul(filename) || Native.HasNul(message) then Native.Panic(Native.InteriorNul)
      else Native.Ok(Native.Some(LogMessage(level, filename, line, message)))
  }

  /** `x as u32` for an `i32`: negative values wrap to the upper half. */
  function AsU32(x: i32): (r: Native.u32)
    ensures (r - x) % Native.U32_LIMIT == 0
  {
    x % Native.U32_LIMIT
  }

  /** The two casts undo each other: no line number is lost on the way to the host. */
  lemma AsI32RoundTrip(x: Native.u32)
    ensures AsU32(AsI32(x)) == x
  {
  }

  /** The line the host receives reads back, as a `u32`, as the event's line, or 0 without one. */
  lemma OnEventRecoversLine(event: Metadata, message: string, enabled: Native.u32 -> bool)
    requires OnEvent(event, message, enabled).Ok? && OnEvent(event, message, enabled).value.Some?
    ensures AsU32(OnEvent(event, message, enabled).value.value.line) == event.line.GetOr(0)
  {
    AsI32RoundTrip(event.line.GetOr(0));
  }
}
