/** The logging calls the test makes: `logMessage` picks the `JDK14Logger`
    method named after the canonical level, and that method turns the call
    into a JUL log record. */
module Adapter {
  import opened Wrappers
  import Jul
  import opened LevelMap
  import opened Records

  /** The five logging methods of `JDK14Logger`. */
  datatype Method = Error | Warn | Info | Debug | Trace

  /** The canonical level a logging method logs at. */
  function MethodLevel(m: Method): LogLevel {
    match m
    case Error => ERROR
    case Warn => WARNING
    case Info => INFO
    case Debug => DEBUG
    case Trace => TRACE
  }

  /** One call on the logger: the method and the arguments passed to it. */
  datatype Call = Call(target: Method, message: string, args: seq<Arg>)

  /** `logMessage`: calls the one logging method whose level is `level`,
      passing message and arguments through untouched. */
  function LogMessage(level: LogLevel, message: string, args: seq<Arg>): (c: Call)
    ensures MethodLevel(c.target) == level
    ensures c.message == message && c.args == args
  {
    match level
    case ERROR => Call(Error, message, args)
    case WARNING => Call(Warn, message, args)
    case INFO => Call(Info, message, args)
    case DEBUG => Call(Debug, message, args)
    case TRACE => Call(Trace, message, args)
  }

  /** The dispatch is a bijection: each method is chosen by exactly one
      canonical level, the one it logs at. */
  lemma DispatchBijective(m: Method, level: LogLevel, message: string, args: seq<Arg>)
    ensures LogMessage(level, message, args).target == m <==> MethodLevel(m) == level
  {
  }

  /** The arguments a record's throwable came from. */
  function ThrownArgs(thrown: Option<Throwable>): seq<Arg> {
    match thrown
    case None => []
    case Some(t) => [Exc(t)]
  }

  /** Separates a trailing throwable from the substitution parameters. */
  function SplitThrown(args: seq<Arg>): (p: (seq<Arg>, Option<Throwable>))
    ensures p.0 + ThrownArgs(p.1) == args
    ensures p.1.None? <==> (args == [] || !args[|args| - 1].Exc?)
  {
    if args != [] && args[|args| - 1].Exc? then
      (args[..|args| - 1], Some(args[|args| - 1].thrown))
    else
      (args, None)
  }

  /** The record a logging call produces: logged at the JUL level of the
      method's canonical level, with a trailing throwable attached as the
      record's exception rather than as a parameter. */
  function Emit(c: Call): (r: LogRecord)
    ensures FromJavaCoreLoggerLevel(Some(r.level)) == Success(MethodLevel(c.target))
    ensures r.message == c.message
    ensures r.params + ThrownArgs(r.thrown) == c.args
  {
    var (params, thrown) := SplitThrown(c.args);
    RoundTrip(MethodLevel(c.target));
    LogRecord(ToJavaCoreLoggerLevel(MethodLevel(c.target)), c.message, params, thrown)
  }

  /** `setLogLevel` followed by a call at `level`: the record passes the
      logger's threshold exactly when `level` is at least as severe as the
      canonical level the threshold was set from. */
  lemma ThresholdGate(threshold: LogLevel, level: LogLevel, message: string, args: seq<Arg>)
    ensures Jul.IsLoggable(ToJavaCoreLoggerLevel(threshold), Emit(LogMessage(level, message, args)).level)
            <==> AtLeastAsSevere(level, threshold)
  {
    ToJavaCoreLoggerLevelOrder(level, threshold);
  }
}
