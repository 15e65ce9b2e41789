# JDK14Logger level mapping and capture handler, modelled in Dafny

This project models the logic held in the integration test of the
`java.util.logging` (JUL) adapter of the Snowflake JDBC driver's logging facade:

- the five canonical severities `LogLevel {ERROR, WARNING, INFO, DEBUG, TRACE}`;
- their translation to JUL levels (`toJavaCoreLoggerLevel`), which is total;
- the translation back (`fromJavaCoreLoggerLevel`), which is partial and many-to-one;
- the dispatch of `logMessage` to the logger method named after the level;
- the capture handler's state: the last message, output and level, overwritten by
  `publish` and nulled by `clearLastLoggedMessageAndLevel`;
- what `testLogException` asserts about the stack-trace dump flag.

Files and modules:

- `wrappers.dfy` (`Wrappers`): `Option` stands for a nullable reference. `Result` stands for a call that may throw.
- `jul.dfy` (`Jul`): JUL `Level` values and constants, `Level.equals` and the `Logger.isLoggable` threshold rule.
  This is library behaviour as the JDK documents it.
- `text.dfy` (`Text`): `String.contains`, shown equal to the positional definition of an occurrence.
- `levelmap.dfy` (`LevelMap`): the two level maps and their lemmas.
- `records.dfy` (`Records`): throwables, arguments, log records and the formatter abstraction.
- `adapter.dfy` (`Adapter`): `logMessage` dispatch and the record each logger method produces.
- `capture.dfy` (`Capture`): the test instance as a state machine, event runs and the `testLogException` scenario.

Modelling decisions:

- JUL `Level.equals` compares integer values only, so the reverse map dispatches on
  `value`. A custom level with value 500 maps to DEBUG like FINE does.
- A null level is `None`. Passed to `fromJavaCoreLoggerLevel`, every `equals` test is false,
  and `level.toString()` in the exception message then throws a `NullPointerException`.
  The model returns `Failure(NullPointer)` for it. Every other unsupported level yields
  `IllegalArgument("Specified log level '<name>' not supported")`.
- The formatter (`SFFormatter`) is a `Formatter` value holding two arbitrary rendering
  functions. The only assumption about it is `HidesOrDumps(f, text)`. This is the
  `testLogException` assertion generalised to every record of the shape the test's calls
  produce:
  - the record is at one of the five emitted JUL levels;
  - it has no substitution parameters;
  - it carries a throwable whose message is `text`;
  - its template does not mention `text`.

  For such a record, the full output contains `text` exactly when the dump flag passed to
  that call is on. The assumption says nothing about records with parameters or custom
  levels. A substituting formatter can assemble `text` from parameters, and a level-printing
  one can print a custom level's name, so the assumption could not cover those records.
  Two formatters show the assumption can be met. `Records.MinimalHidesOrDumps` covers a
  formatter that prints the bare template, for every text. `Records.LevelHeaderHidesOrDumps`
  covers one that also prints a `LEVEL: ` header, for the test's text "FakeExceptionInStack".
- The reverse map throws `IllegalArgumentException`, or `NullPointerException` for null.
- The dump system property becomes a `bool` passed with every logging call. The flag is
  therefore read per call by construction.
- `JDK14Logger` is not part of this model. Its five methods are modelled as logging at the
  JUL level of their canonical level. A trailing throwable argument becomes the record's
  exception, not a parameter.
- The logger threshold is the effective level of the internal logger. Records below it,
  and all records when it is OFF, never reach the handler.

## Model

| member | source | states |
|---|---|---|
| LevelMap.ToJavaCoreLoggerLevel | src/test/java/net/snowflake/client/log/JDK14LoggerLatestIT.java:135-151 | Every canonical level maps to one of SEVERE, WARNING, INFO, FINE, FINEST, and its value is accepted by the reverse map; the switch is exhaustive, so the fallback is unreachable |
| LevelMap.FromJavaCoreLoggerLevel | src/test/java/net/snowflake/client/log/JDK14LoggerLatestIT.java:153-173 | Succeeds exactly on the values of SEVERE, WARNING, INFO, FINE, FINER, FINEST and ALL; any other level fails with the IllegalArgumentException text naming it; null fails with a NullPointerException |
| LevelMap.RoundTrip | src/test/java/net/snowflake/client/log/JDK14LoggerLatestIT.java:136-173 | For every canonical level L, fromJavaCoreLoggerLevel(toJavaCoreLoggerLevel(L)) == L |
| LevelMap.ToJavaCoreLoggerLevelInjective | src/test/java/net/snowflake/client/log/JDK14LoggerLatestIT.java:136-151 | Distinct canonical levels map to JUL levels that are not equal under Level.equals |
| LevelMap.ToJavaCoreLoggerLevelOrder | src/test/java/net/snowflake/client/log/JDK14LoggerLatestIT.java:136-151 | A canonical level is at least as severe as another exactly when its JUL value is at least as large |
| LevelMap.Preimage | src/test/java/net/snowflake/client/log/JDK14LoggerLatestIT.java:155-169 | DEBUG and TRACE each have two JUL values mapping to them; the other three levels have one |
| LevelMap.FromJavaCoreLoggerLevelPreimage | src/test/java/net/snowflake/client/log/JDK14LoggerLatestIT.java:155-169 | A JUL level maps to L exactly when its value is in L's preimage: FINE/FINER for DEBUG, FINEST/ALL for TRACE, one value for each other level |
| LevelMap.ManyToOne | src/test/java/net/snowflake/client/log/JDK14LoggerLatestIT.java:164-169 | FINE and FINER, which are not equal, both give DEBUG; FINEST and ALL, which are not equal, both give TRACE |
| LevelMap.RejectsConfigAndOff | src/test/java/net/snowflake/client/log/JDK14LoggerLatestIT.java:171-172 | CONFIG and OFF are rejected with the exception message naming them, never a default level |
| LevelMap.FromJavaCoreLoggerLevelMonotone | src/test/java/net/snowflake/client/log/JDK14LoggerLatestIT.java:154-169 | Of two accepted JUL levels, the one with the larger value never maps to a less severe canonical level |
| LevelMap.Canonicalise | src/test/java/net/snowflake/client/log/JDK14LoggerLatestIT.java:136-169 | Mapping an accepted JUL level to canonical and back gives a level with the same canonical image and a value no lower than the original |
| Adapter.LogMessage | src/test/java/net/snowflake/client/log/JDK14LoggerLatestIT.java:89-107 | logMessage calls the logger method whose level is the given level, passing message and arguments unchanged |
| Adapter.DispatchBijective | src/test/java/net/snowflake/client/log/JDK14LoggerLatestIT.java:89-107 | Each logger method is chosen by exactly one canonical level, the one it logs at |
| Adapter.SplitThrown | src/test/java/net/snowflake/client/log/JDK14LoggerLatestIT.java:213 | A trailing throwable argument is split off as the record's exception; the parameters plus that throwable give back the arguments |
| Adapter.Emit | src/test/java/net/snowflake/client/log/JDK14LoggerLatestIT.java:89-107 | The record from a logger method reads back through fromJavaCoreLoggerLevel as that method's canonical level and keeps message and arguments |
| Adapter.ThresholdGate | src/test/java/net/snowflake/client/log/JDK14LoggerLatestIT.java:109-112 | After setLogLevel(T), a call at L passes the logger's threshold exactly when L is at least as severe as T |
| Capture.ClearLastLoggedMessageAndLevel | src/test/java/net/snowflake/client/log/JDK14LoggerLatestIT.java:128-133 | Message, output and level all become null; the logger threshold is unchanged |
| Capture.ClearResets | src/test/java/net/snowflake/client/log/JDK14LoggerLatestIT.java:128-133 | Clearing is idempotent, changes only the captured fields, and afterwards reading the level back fails on null |
| Capture.SetLogLevel | src/test/java/net/snowflake/client/log/JDK14LoggerLatestIT.java:109-112 | The threshold becomes a level that reads back as the given canonical level; captured fields are unchanged |
| Capture.Publish | src/test/java/net/snowflake/client/log/JDK14LoggerLatestIT.java:188-195 | All three captured fields are set, the level to the record's level; the threshold is unchanged |
| Capture.PublishOverwrites | src/test/java/net/snowflake/client/log/JDK14LoggerLatestIT.java:188-195 | For any record, the captured fields after publish do not depend on what was captured before, and message and output are the formatter's two renderings of that record; a record at the JUL level of a canonical level reads back as that level |
| Capture.GetLoggedMessage | src/test/java/net/snowflake/client/log/JDK14LoggerLatestIT.java:114-117 | On a coherent state the captured message is null exactly when the captured output is |
| Capture.GetLoggedOutput | src/test/java/net/snowflake/client/log/JDK14LoggerLatestIT.java:119-121 | On a coherent state the captured output is null exactly when reading the captured level back fails |
| Capture.GetLoggedMessageLevel | src/test/java/net/snowflake/client/log/JDK14LoggerLatestIT.java:123-126 | Reading the level back fails with a NullPointerException exactly when no level is captured |
| Capture.LogCall | src/test/java/net/snowflake/client/log/JDK14LoggerLatestIT.java:89-107 | A call that passes the threshold leaves an output and a level that reads back as the logged level; a call that does not leaves the state unchanged |
| Capture.Step | src/test/java/net/snowflake/client/log/JDK14LoggerLatestIT.java:89-133 | Only setLogLevel moves the threshold; a clear leaves all captured fields null |
| Capture.LoggedLevelAfterSetLevel | src/test/java/net/snowflake/client/log/JDK14LoggerLatestIT.java:109-126 | Set level T, clear, log at L: the level read back is L when L is at least as severe as T, otherwise null |
| Capture.StepPreservesCoherent | src/test/java/net/snowflake/client/log/JDK14LoggerLatestIT.java:128-133 | Each step keeps the captured fields all null or all set, with a level the reverse map accepts |
| Capture.RunPreservesCoherent | src/test/java/net/snowflake/client/log/JDK14LoggerLatestIT.java:123-133 | Along any sequence of test actions the fields stay coherent, so getLoggedMessageLevel can fail only on null, never with an unsupported level |
| Capture.RunThreshold | src/test/java/net/snowflake/client/log/JDK14LoggerLatestIT.java:109-112 | After any sequence of actions the threshold is the JUL level of the last setLogLevel, or the starting threshold if there was none |
| Capture.DumpFlagDecides | src/test/java/net/snowflake/client/log/JDK14LoggerLatestIT.java:209-228 | Under the formatter assumption, a call carrying an exception captures an output that contains the exception's message exactly when that call's dump flag is on, whatever was captured before |
| Capture.FlagReadOnEveryCall | src/test/java/net/snowflake/client/log/JDK14LoggerLatestIT.java:219-225 | Toggling the flag between two calls on the same logger changes the very next output |
| Capture.MessagesDoNotMentionException | src/test/java/net/snowflake/client/log/JDK14LoggerLatestIT.java:210-221 | Neither message the test logs contains "FakeExceptionInStack" |
| Capture.LogFakeException | src/test/java/net/snowflake/client/log/JDK14LoggerLatestIT.java:213-225 | One DEBUG call with the fake exception captures an output containing its text exactly when the flag is on |
| Capture.TestLogException | src/test/java/net/snowflake/client/log/JDK14LoggerLatestIT.java:208-229 | Clear, then log at DEBUG with the flag off: the output lacks "FakeExceptionInStack"; log again with the flag on: the output contains it |
| Records.MinimalHidesOrDumps | src/test/java/net/snowflake/client/log/JDK14LoggerLatestIT.java:213-225 | A formatter printing the bare template and, with the flag on, the stack-trace line meets the stack-trace assumption for every exception text |
| Records.LevelHeaderHidesOrDumps | src/test/java/net/snowflake/client/log/JDK14LoggerLatestIT.java:209-225 | A formatter that also prints a header with the record's level name meets the stack-trace assumption for "FakeExceptionInStack" |
| Records.EmittedHeadersFree | src/test/java/net/snowflake/client/log/JDK14LoggerLatestIT.java:210-213 | No "LEVEL: " header of the five emitted JUL levels can begin an occurrence of "FakeExceptionInStack" |
| Text.ContainsIffOccurs | src/test/java/net/snowflake/client/log/JDK14LoggerLatestIT.java:217 | String.contains holds exactly when the searched string occurs at some position |

## Left out

- The JUnit fixtures are not modelled: `@BeforeClass`, `@AfterClass`, `@Before` and `@After`. These save and restore the logger level, the parent-handler setting and the dump system property, and add and remove the handler. This is test plumbing over process-wide state.
- `System.getProperty`, `setProperty` and `clearProperty` are not modelled. The dump flag is a `bool` passed with each logging call.
- The JUL logger registry (`Logger.getLogger` caching by name) and handler registration are not modelled. Parent handlers are not modelled either. Delivery is one synchronous step to the single capture handler.
- A logger whose level is null inherits its parent's level. The model does not cover this: it keeps the effective threshold directly.
- `SFFormatter` text rendering is not part of this model: placeholder substitution, headers and stack-trace printing. The formatter is abstract and constrained only by `HidesOrDumps`.
- `JDK14Logger` internals and `AbstractLoggerIT` are not part of this model. Examples are source-location lookup and message masking.
- Record timestamps and concurrent `publish` calls are not modelled.
- `flush` and `close` of the handler do nothing and are not modelled.
- LevelMap.ToJavaCoreLoggerLevel, Adapter.LogMessage, Capture.SetLogLevel: a canonical level is never null in the model, so the `NullPointerException` that Java's `switch` throws for a null enum is not modelled. This affects `toJavaCoreLoggerLevel(null)`, `setLogLevel(null)` and `logMessage(null, ...)`. The test never passes null.
- Capture.Publish: its own contract does not state the message and output contents. `Capture.PublishOverwrites` states them.
