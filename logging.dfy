/**
 * Log levels: Spring Boot's `LogLevel`, FFmpeg's `AV_LOG_*` integers, and the SLF4J logger
 * methods the core writes to. `FFmpegConverterOutputLogCallback` maps the first to the second
 * (`set`) and routes FFmpeg's output back to SLF4J (`call`); `CommandLineAction.handleOutput`
 * picks an SLF4J method for a Spring level.
 */
module Logging {

  datatype LogLevel = TRACE | DEBUG | INFO | WARN | ERROR | FATAL | OFF

  /** The SLF4J `Logger` methods. */
  datatype Slf4jMethod = Trace | Debug | Info | Warn | Error

  /** One call to an SLF4J logger method with its message text. */
  datatype LogEvent = LogEvent(via: Slf4jMethod, text: string)

  // The `AV_LOG_*` constants of libavutil.
  const AV_LOG_QUIET := -8
  const AV_LOG_PANIC := 0
  const AV_LOG_FATAL := 8
  const AV_LOG_ERROR := 16
  const AV_LOG_WARNING := 24
  const AV_LOG_INFO := 32
  const AV_LOG_VERBOSE := 40
  const AV_LOG_DEBUG := 48
  const AV_LOG_TRACE := 56

  /** Position of a Spring level from the most to the least verbose. */
  function Rank(l: LogLevel): nat {
    match l
    case TRACE => 0
    case DEBUG => 1
    case INFO => 2
    case WARN => 3
    case ERROR => 4
    case FATAL => 5
    case OFF => 6
  }

  /** The FFmpeg level that `FFmpegConverterOutputLogCallback.set` installs for a Spring level. */
  function FFmpegLevel(l: LogLevel): int {
    match l
    case FATAL => AV_LOG_FATAL
    case ERROR => AV_LOG_ERROR
    case WARN => AV_LOG_WARNING
    case INFO => AV_LOG_INFO
    case DEBUG => AV_LOG_VERBOSE
    case TRACE => AV_LOG_TRACE
    case OFF => AV_LOG_QUIET
  }

  /** The logger method `FFmpegConverterOutputLogCallback.call` uses for an FFmpeg level. */
  function Route(level: int): Slf4jMethod {
    if level == AV_LOG_PANIC || level == AV_LOG_FATAL || level == AV_LOG_ERROR then Error
    else if level == AV_LOG_WARNING then Warn
    else if level == AV_LOG_INFO then Info
    else if level == AV_LOG_VERBOSE || level == AV_LOG_DEBUG then Debug
    else Trace
  }

  /** `FFmpegConverterOutputLogCallback.call`: the message goes to the routed method unchanged. */
  function Call(level: int, msg: string): (e: LogEvent)
    ensures e.text == msg
    ensures e.via == Error <==> level in {AV_LOG_PANIC, AV_LOG_FATAL, AV_LOG_ERROR}
    ensures e.via == Warn <==> level == AV_LOG_WARNING
    ensures e.via == Info <==> level == AV_LOG_INFO
    ensures e.via == Debug <==> level in {AV_LOG_VERBOSE, AV_LOG_DEBUG}
  {
    LogEvent(Route(level), msg)
  }

  /** The logger method named by a Spring level; FATAL has none of its own and uses `error`. */
  function MethodFor(l: LogLevel): Slf4jMethod
    requires l != OFF
  {
    match l
    case TRACE => Trace
    case DEBUG => Debug
    case INFO => Info
    case WARN => Warn
    case ERROR | FATAL => Error
  }

  /** `set` is strictly antitone: a more verbose Spring level gets a larger FFmpeg level. */
  lemma FFmpegLevelAntitone(a: LogLevel, b: LogLevel)
    requires Rank(a) < Rank(b)
    ensures FFmpegLevel(a) > FFmpegLevel(b)
  {
  }

  /** Distinct Spring levels give distinct FFmpeg levels. */
  lemma FFmpegLevelInjective(a: LogLevel, b: LogLevel)
    requires FFmpegLevel(a) == FFmpegLevel(b)
    ensures a == b
  {
    if Rank(a) < Rank(b) {
      FFmpegLevelAntitone(a, b);
    } else if Rank(b) < Rank(a) {
      FFmpegLevelAntitone(b, a);
    }
  }

  /** DEBUG is mapped to VERBOSE, so FFmpeg's own DEBUG level is never installed. */
  lemma NoLevelInstallsDebug(l: LogLevel)
    ensures FFmpegLevel(l) != AV_LOG_DEBUG && FFmpegLevel(l) != AV_LOG_PANIC
  {
  }

  /**
   * A round trip through FFmpeg: output that FFmpeg emits at the level installed for `l`
   * reaches SLF4J through the method named `l`, FATAL through `error`, with its text unchanged.
   */
  lemma SetThenCall(l: LogLevel, msg: string)
    requires l != OFF
    ensures Call(FFmpegLevel(l), msg) == LogEvent(MethodFor(l), msg)
  {
  }
}
