/** The test's capture handler as a state machine. The test instance holds
    the last message, output and level its handler saw; `publish` overwrites
    all three, `clearLastLoggedMessageAndLevel` nulls them, and `setLogLevel`
    sets the threshold of the logger the handler is attached to. */
module Capture {
  import opened Wrappers
  import Jul
  import Text
  import opened LevelMap
  import opened Records
  import opened Adapter

  /** `lastLogMessage`, `lastLogOutput` and `lastLogMessageLevel`; `None` is null. */
  datatype Captured = Captured(message: Option<string>, output: Option<string>, level: Option<Jul.Level>)

  /** The test instance: the effective level of the internal logger and the
      captured fields. */
  datatype Harness = Harness(threshold: Jul.Level, captured: Captured)

  /** The captured fields of a fresh test instance, or after a clear. */
  const Cleared: Captured := Captured(None, None, None)

  /** The captured fields are all null or all set, and a set level is one the
      reverse level map accepts. */
  predicate Coherent(c: Captured) {
    && c.message.Some? == c.output.Some?
    && c.output.Some? == c.level.Some?
    && (c.level.Some? ==> FromJavaCoreLoggerLevel(c.level).Success?)
  }

  /** `clearLastLoggedMessageAndLevel`. */
  function ClearLastLoggedMessageAndLevel(h: Harness): (h': Harness)
    ensures h'.captured.message.None? && h'.captured.output.None? && h'.captured.level.None?
    ensures h'.threshold == h.threshold
  {
    h.(captured := Cleared)
  }

  /** `setLogLevel`: the logger's threshold becomes the JUL level of `level`. */
  function SetLogLevel(h: Harness, level: LogLevel): (h': Harness)
    ensures FromJavaCoreLoggerLevel(Some(h'.threshold)) == Success(level)
    ensures h'.captured == h.captured
  {
    RoundTrip(level);
    h.(threshold := ToJavaCoreLoggerLevel(level))
  }

  /** `TestJDK14LogHandler.publish`: all three captured fields are taken from
      the one record, the output rendered with the dump flag as it is now. */
  function Publish(f: Formatter, dump: bool, r: LogRecord, h: Harness): (h': Harness)
    ensures h'.threshold == h.threshold
    ensures h'.captured.level == Some(r.level)
    ensures h'.captured.message.Some? && h'.captured.output.Some?
  {
    h.(captured := Captured(Some(f.formatMessage(r)), Some(f.format(r, dump)), Some(r.level)))
  }

  /** `getLoggedMessage`: on a coherent state it is null exactly when the
      output is. */
  function GetLoggedMessage(h: Harness): (r: Option<string>)
    ensures Coherent(h.captured) ==> (r.None? <==> GetLoggedOutput(h).None?)
  {
    h.captured.message
  }

  /** `getLoggedOutput`: on a coherent state it is null exactly when reading
      the level back fails. */
  function GetLoggedOutput(h: Harness): (r: Option<string>)
    ensures Coherent(h.captured) ==> (r.None? <==> FromJavaCoreLoggerLevel(h.captured.level).Failure?)
  {
    h.captured.output
  }

  /** `getLoggedMessageLevel`. */
  function GetLoggedMessageLevel(h: Harness): (r: Result<LogLevel, LevelError>)
    ensures h.captured.level.None? <==> r == Failure(NullPointer)
  {
    FromJavaCoreLoggerLevel(h.captured.level)
  }

  /** One `logMessage` call, delivered synchronously to the handler when the
      logger's threshold lets the record through and dropped otherwise. */
  function LogCall(f: Formatter, dump: bool, h: Harness, level: LogLevel, message: string, args: seq<Arg>): (h': Harness)
    ensures h'.threshold == h.threshold
    ensures Jul.IsLoggable(h.threshold, ToJavaCoreLoggerLevel(level)) ==>
              GetLoggedMessageLevel(h') == Success(level) && h'.captured.output.Some?
    ensures !Jul.IsLoggable(h.threshold, ToJavaCoreLoggerLevel(level)) ==> h' == h
  {
    var r := Emit(LogMessage(level, message, args));
    if Jul.IsLoggable(h.threshold, r.level) then Publish(f, dump, r, h) else h
  }

  /** What the test does to its instance. */
  datatype Event =
    | SetLevel(level: LogLevel)
    | Log(level: LogLevel, message: string, args: seq<Arg>, dump: bool)
    | ClearLast

  function Step(f: Formatter, h: Harness, e: Event): (h': Harness)
    ensures !e.SetLevel? ==> h'.threshold == h.threshold
    ensures e.ClearLast? ==> h'.captured == Cleared
  {
    match e
    case SetLevel(level) => SetLogLevel(h, level)
    case Log(level, message, args, dump) => LogCall(f, dump, h, level, message, args)
    case ClearLast => ClearLastLoggedMessageAndLevel(h)
  }

  function Run(f: Formatter, h: Harness, es: seq<Event>): Harness
    decreases |es|
  {
    if es == [] then h else Run(f, Step(f, h, es[0]), es[1..])
  }

  /** The canonical level of the last `SetLevel` in `es`, if any. */
  function LastSetLevel(es: seq<Event>): Option<LogLevel>
    decreases |es|
  {
    if es == [] then None
    else if LastSetLevel(es[1..]).Some? then LastSetLevel(es[1..])
    else if es[0].SetLevel? then Some(es[0].level)
    else None
  }

  /** Publishing overwrites every captured field: what is captured after it
      does not depend on what was captured before, message and output are
      the formatter's two renderings of the one record, and a record logged
      at the JUL level of a canonical level reads back as that level. */
  lemma PublishOverwrites(f: Formatter, dump: bool, r: LogRecord, h1: Harness, h2: Harness, level: LogLevel)
    ensures Publish(f, dump, r, h1).captured == Publish(f, dump, r, h2).captured
    ensures GetLoggedMessage(Publish(f, dump, r, h1)) == Some(f.formatMessage(r))
    ensures GetLoggedOutput(Publish(f, dump, r, h1)) == Some(f.format(r, dump))
    ensures r.level == ToJavaCoreLoggerLevel(level) ==>
              GetLoggedMessageLevel(Publish(f, dump, r, h1)) == Success(level)
  {
    RoundTrip(level);
  }

  /** Clearing is idempotent and touches nothing but the captured fields;
      afterwards the level getter fails on null. */
  lemma ClearResets(h: Harness)
    ensures ClearLastLoggedMessageAndLevel(ClearLastLoggedMessageAndLevel(h)) == ClearLastLoggedMessageAndLevel(h)
    ensures ClearLastLoggedMessageAndLevel(h) == Harness(h.threshold, Cleared)
    ensures GetLoggedMessageLevel(ClearLastLoggedMessageAndLevel(h)) == Failure(NullPointer)
  {
  }

  /** Set the level to `threshold`, clear, log at `level`: the level read
      back is `level` when it is at least as severe as the threshold, and
      otherwise nothing reached the handler. */
  lemma LoggedLevelAfterSetLevel(f: Formatter, dump: bool, h: Harness, threshold: LogLevel,
                                 level: LogLevel, message: string, args: seq<Arg>)
    ensures var h' := LogCall(f, dump, ClearLastLoggedMessageAndLevel(SetLogLevel(h, threshold)), level, message, args);
            GetLoggedMessageLevel(h') == if AtLeastAsSevere(level, threshold) then Success(level) else Failure(NullPointer)
  {
    ThresholdGate(threshold, level, message, args);
  }

  /** Each step keeps the captured fields coherent. */
  lemma StepPreservesCoherent(f: Formatter, h: Harness, e: Event)
    requires Coherent(h.captured)
    ensures Coherent(Step(f, h, e).captured)
  {
  }

  /** Any run of the test from a coherent state stays coherent, so reading
      the captured level back can only fail on null, never with an
      unsupported level. */
  lemma {:induction false} RunPreservesCoherent(f: Formatter, h: Harness, es: seq<Event>)
    requires Coherent(h.captured)
    ensures Coherent(Run(f, h, es).captured)
    ensures GetLoggedMessageLevel(Run(f, h, es)).Failure? ==>
              GetLoggedMessageLevel(Run(f, h, es)).error == NullPointer
    decreases |es|
  {
    if es != [] {
      StepPreservesCoherent(f, h, es[0]);
      RunPreservesCoherent(f, Step(f, h, es[0]), es[1..]);
    }
  }

  /** Only `setLogLevel` moves the threshold: after a run it is the JUL level
      of the last `SetLevel`, or the starting threshold when there was none. */
  lemma {:induction false} RunThreshold(f: Formatter, h: Harness, es: seq<Event>)
    ensures Run(f, h, es).threshold ==
              match LastSetLevel(es)
              case Some(level) => ToJavaCoreLoggerLevel(level)
              case None => h.threshold
    decreases |es|
  {
    if es != [] {
      RunThreshold(f, Step(f, h, es[0]), es[1..]);
    }
  }

  /** With a formatter that meets the exception test's assumption, the dump
      flag passed to a call alone decides whether the output of that call
      contains the exception's message, whatever was captured before. */
  lemma DumpFlagDecides(f: Formatter, dump: bool, h: Harness, level: LogLevel, message: string, t: Throwable)
    requires HidesOrDumps(f, t.message)
    requires Jul.IsLoggable(h.threshold, ToJavaCoreLoggerLevel(level))
    requires !Text.Contains(message, t.message)
    ensures var out := GetLoggedOutput(LogCall(f, dump, h, level, message, [Exc(t)]));
            out.Some? && (Text.Contains(out.value, t.message) <==> dump)
  {
    var r := Emit(LogMessage(level, message, [Exc(t)]));
    assert r.params == [] && r.thrown == Some(t);
    assert r.level in Emitted;
  }

  /** The flag is read on every call: toggling it between two calls on the
      same logger changes the very next output. */
  lemma FlagReadOnEveryCall(f: Formatter, first: bool, second: bool, h: Harness,
                            level: LogLevel, message: string, t: Throwable)
    requires HidesOrDumps(f, t.message)
    requires Jul.IsLoggable(h.threshold, ToJavaCoreLoggerLevel(level))
    requires !Text.Contains(message, t.message)
    ensures var h1 := LogCall(f, first, h, level, message, [Exc(t)]);
            var out1 := GetLoggedOutput(h1);
            var out2 := GetLoggedOutput(LogCall(f, second, h1, level, message, [Exc(t)]));
            && out1.Some? && out2.Some?
            && (Text.Contains(out1.value, t.message) <==> first)
            && (Text.Contains(out2.value, t.message) <==> second)
  {
    DumpFlagDecides(f, first, h, level, message, t);
    DumpFlagDecides(f, second, LogCall(f, first, h, level, message, [Exc(t)]), level, message, t);
  }

  const FakeException: Throwable := Throwable("java.lang.Exception", ExceptionText)
  const NoStackMessage: string := "test exception, no stack"
  const DumpStackMessage: string := "test exception, dump stack"

  /** Neither message the test logs has a capital F. */
  lemma NoCapitalF()
    ensures 'F' !in NoStackMessage && 'F' !in DumpStackMessage
  {
  }

  /** Neither message the test logs mentions the exception's text, which
      starts with the capital F that neither has. */
  lemma MessagesDoNotMentionException()
    ensures !Text.Contains(NoStackMessage, ExceptionText)
    ensures !Text.Contains(DumpStackMessage, ExceptionText)
  {
    NoCapitalF();
    if Text.Contains(NoStackMessage, ExceptionText) {
      Text.ContainsFirstChar(NoStackMessage, ExceptionText);
    }
    if Text.Contains(DumpStackMessage, ExceptionText) {
      Text.ContainsFirstChar(DumpStackMessage, ExceptionText);
    }
  }

  /** A run of two events is the two steps one after the other. */
  lemma RunTwo(f: Formatter, h: Harness, e1: Event, e2: Event)
    ensures Run(f, h, [e1, e2]) == Step(f, Step(f, h, e1), e2)
  {
    assert [e1, e2][1..] == [e2];
    assert Run(f, h, [e1, e2]) == Run(f, Step(f, h, e1), [e2]);
    RunOne(f, Step(f, h, e1), e2);
  }

  /** A run of one event is that step. */
  lemma RunOne(f: Formatter, h: Harness, e: Event)
    ensures Run(f, h, [e]) == Step(f, h, e)
  {
    assert [e][1..] == [];
  }

  /** One logging call of the test, with the exception attached: the output
      is captured, and it contains the exception's text exactly when the
      flag is on. */
  lemma LogFakeException(f: Formatter, h: Harness, message: string, dump: bool)
    requires HidesOrDumps(f, ExceptionText)
    requires Jul.IsLoggable(h.threshold, Jul.FINE)
    requires !Text.Contains(message, ExceptionText)
    ensures var h' := Step(f, h, Log(DEBUG, message, [Exc(FakeException)], dump));
            && h'.threshold == h.threshold
            && GetLoggedOutput(h').Some?
            && (Text.Contains(GetLoggedOutput(h').value, ExceptionText) <==> dump)
  {
    DumpFlagDecides(f, dump, h, DEBUG, message, FakeException);
  }

  /** `testLogException`: clear, log at DEBUG with the flag unset, then set
      the flag and log again. The first output lacks the exception's
      message and the second contains it. The test relies on DEBUG records
      reaching the handler; otherwise the output would still be null. */
  lemma TestLogException(f: Formatter, h: Harness)
    requires HidesOrDumps(f, ExceptionText)
    requires Jul.IsLoggable(h.threshold, Jul.FINE)
    ensures var h1 := Run(f, h, [ClearLast, Log(DEBUG, NoStackMessage, [Exc(FakeException)], false)]);
            var h2 := Run(f, h1, [Log(DEBUG, DumpStackMessage, [Exc(FakeException)], true)]);
            && GetLoggedOutput(h1).Some? && !Text.Contains(GetLoggedOutput(h1).value, ExceptionText)
            && GetLoggedOutput(h2).Some? && Text.Contains(GetLoggedOutput(h2).value, ExceptionText)
  {
    var first := Log(DEBUG, NoStackMessage, [Exc(FakeException)], false);
    var second := Log(DEBUG, DumpStackMessage, [Exc(FakeException)], true);
    MessagesDoNotMentionException();
    var h0 := Step(f, h, ClearLast);
    RunTwo(f, h, ClearLast, first);
    LogFakeException(f, h0, NoStackMessage, false);
    var h1 := Step(f, h0, first);
    RunOne(f, h1, second);
    LogFakeException(f, h1, DumpStackMessage, true);
  }
}
