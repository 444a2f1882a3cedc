/** The per-name `Logger` front end (VSRL_IF.h:34-171). A logger holds its
    name and a pointer to the engine; each of its 27 methods forwards one call
    to the engine with a fixed level. The model turns a method invocation into
    the engine call it produces; the engine pointer is implicit. */
module Loggers {
  import opened Text
  import LogLevels
  import opened Wrappers

  /** VSRL_IF.h:34-43: only the name is state; it is set by the constructor. */
  datatype Logger = Logger(name: seq<byte>)

  /** The nine severity methods of `Logger`. */
  datatype Severity = Debug | Info | Notice | Warn | Error | Crit | Alert | Emerg | Fatal

  /** The uninterpreted variadic arguments of a printf-style call. */
  type FormatArgs = seq<seq<byte>>

  /** The three overloads of each severity method. */
  datatype Payload =
    | Formatted(fmt: seq<byte>, args: FormatArgs)   // (const char* fmt, ...)
    | Plain(msg: seq<byte>)                          // (const std::string&)
    | Wide(msgW: seq<u16>)                           // (const std::wstring&)

  /** The three engine entry points, with their arguments. */
  datatype Call =
    | LogFmtCall(level: LogLevels.LogLevel, name: seq<byte>, fmt: seq<byte>, args: FormatArgs)
    | LogCall(level: LogLevels.LogLevel, name: seq<byte>, msg: seq<byte>)
    | LogWCall(level: LogLevels.LogLevel, name: seq<byte>, msgW: seq<u16>)

  /** The level each method passes to the engine. */
  function SeverityLevel(s: Severity): (l: LogLevels.LogLevel)
    ensures LogLevels.IsLoggable(l)
  {
    match s
    case Debug => LogLevels.Debug
    case Info => LogLevels.Info
    case Notice => LogLevels.Notice
    case Warn => LogLevels.Warn
    case Error => LogLevels.Error
    case Crit => LogLevels.Crit
    case Alert => LogLevels.Alert
    case Emerg => LogLevels.Emerg
    case Fatal => LogLevels.Fatal
  }

  /** The method that forwards level `l`, if any; nothing forwards None. */
  function SeverityOf(l: LogLevels.LogLevel): (r: Option<Severity>)
    ensures r.Some? <==> l != LogLevels.None
    ensures r.Some? ==> SeverityLevel(r.value) == l
  {
    match l
    case None => NoValue
    case Debug => Some(Debug)
    case Info => Some(Info)
    case Notice => Some(Notice)
    case Warn => Some(Warn)
    case Error => Some(Error)
    case Crit => Some(Crit)
    case Alert => Some(Alert)
    case Emerg => Some(Emerg)
    case Fatal => Some(Fatal)
  }

  /** Each severity method forwards a distinct level, so the level determines the method. */
  lemma SeverityLevelInjective(a: Severity, b: Severity)
    requires SeverityLevel(a) == SeverityLevel(b)
    ensures a == b
  {
    assert SeverityOf(SeverityLevel(a)) == Some(a);
  }

  /** `logger.<severity>(payload)`: the one engine call the method body makes. */
  function Forward(lg: Logger, s: Severity, p: Payload): (c: Call)
    ensures c.level == SeverityLevel(s) && LogLevels.IsLoggable(c.level)
    ensures c.name == lg.name
    ensures p.Formatted? <==> c.LogFmtCall?
    ensures p.Plain? <==> c.LogCall?
    ensures p.Wide? <==> c.LogWCall?
    ensures p.Formatted? ==> c.fmt == p.fmt && c.args == p.args
    ensures p.Plain? ==> c.msg == p.msg
    ensures p.Wide? ==> c.msgW == p.msgW
  {
    match p
    case Formatted(fmt, args) => LogFmtCall(SeverityLevel(s), lg.name, fmt, args)
    case Plain(msg) => LogCall(SeverityLevel(s), lg.name, msg)
    case Wide(msgW) => LogWCall(SeverityLevel(s), lg.name, msgW)
  }

  /** Two calls on one logger that reach the engine as the same call are the
      same method with the same payload: the forwarding loses nothing. */
  lemma ForwardIsFaithful(lg: Logger, s1: Severity, p1: Payload, s2: Severity, p2: Payload)
    requires Forward(lg, s1, p1) == Forward(lg, s2, p2)
    ensures s1 == s2 && p1 == p2
  {
    SeverityLevelInjective(s1, s2);
  }
}
