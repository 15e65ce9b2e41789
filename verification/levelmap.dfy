/** The facade's five canonical severities and the test's translation between
    them and `java.util.logging` levels (`toJavaCoreLoggerLevel` and
    `fromJavaCoreLoggerLevel`). */
module LevelMap {
  import opened Wrappers
  import Jul

  /** The canonical severities, most severe first. */
  datatype LogLevel = ERROR | WARNING | INFO | DEBUG | TRACE

  /** Position in the order from most to least severe. */
  function Rank(level: LogLevel): nat {
    match level
    case ERROR => 0
    case WARNING => 1
    case INFO => 2
    case DEBUG => 3
    case TRACE => 4
  }

  predicate AtLeastAsSevere(a: LogLevel, b: LogLevel) {
    Rank(a) <= Rank(b)
  }

  /** What the reverse map throws: `IllegalArgumentException` with its
      message, or the `NullPointerException` of calling `toString` on null. */
  datatype LevelError = IllegalArgument(message: string) | NullPointer

  /** The text of the `IllegalArgumentException` for a level named `name`. */
  function UnsupportedMessage(name: string): string {
    "Specified log level '" + name + "' not supported"
  }

  /** The five JUL levels the facade emits, one per canonical level. */
  const Emitted: set<Jul.Level> := {Jul.SEVERE, Jul.WARNING, Jul.INFO, Jul.FINE, Jul.FINEST}

  /** The JUL level values the reverse map accepts: those of some canonical
      level's preimage. */
  const Accepted: set<int> :=
    Preimage(ERROR) + Preimage(WARNING) + Preimage(INFO) + Preimage(DEBUG) + Preimage(TRACE)

  /** `toJavaCoreLoggerLevel`. The switch covers every canonical level, so
      the Java fallback after it is never reached. */
  function ToJavaCoreLoggerLevel(level: LogLevel): (r: Jul.Level)
    ensures r in Emitted
    ensures r.value in Accepted
  {
    match level
    case ERROR => Jul.SEVERE
    case WARNING => Jul.WARNING
    case INFO => Jul.INFO
    case DEBUG => Jul.FINE
    case TRACE => Jul.FINEST
  }

  /** `fromJavaCoreLoggerLevel`, with null as `None`. Levels are compared
      with `Level.equals`, that is by value. */
  function FromJavaCoreLoggerLevel(level: Option<Jul.Level>): (r: Result<LogLevel, LevelError>)
    ensures level.None? ==> r == Failure(NullPointer)
    ensures level.Some? ==> (r.Success? <==> level.value.value in Accepted)
    ensures level.Some? && r.Failure? ==>
              r.error == IllegalArgument(UnsupportedMessage(level.value.name))
  {
    match level
    case None => Failure(NullPointer)
    case Some(l) =>
      if Jul.Equals(Jul.SEVERE, l) then Success(ERROR)
      else if Jul.Equals(Jul.WARNING, l) then Success(WARNING)
      else if Jul.Equals(Jul.INFO, l) then Success(INFO)
      else if Jul.Equals(Jul.FINE, l) || Jul.Equals(Jul.FINER, l) then Success(DEBUG)
      else if Jul.Equals(Jul.FINEST, l) || Jul.Equals(Jul.ALL, l) then Success(TRACE)
      else Failure(IllegalArgument(UnsupportedMessage(l.name)))
  }

  /** The JUL values that the reverse map sends to `level`: one each for the
      three most severe levels, two each for DEBUG and TRACE. */
  function Preimage(level: LogLevel): (vs: set<int>)
    ensures |vs| == if level == DEBUG || level == TRACE then 2 else 1
  {
    match level
    case ERROR => {Jul.SEVERE.value}
    case WARNING => {Jul.WARNING.value}
    case INFO => {Jul.INFO.value}
    case DEBUG => {Jul.FINE.value, Jul.FINER.value}
    case TRACE => {Jul.FINEST.value, Jul.ALL.value}
  }

  /** Every canonical level survives the trip to JUL and back. */
  lemma RoundTrip(level: LogLevel)
    ensures FromJavaCoreLoggerLevel(Some(ToJavaCoreLoggerLevel(level))) == Success(level)
  {
  }

  /** The forward map is one-to-one. */
  lemma ToJavaCoreLoggerLevelInjective(a: LogLevel, b: LogLevel)
    ensures Jul.Equals(ToJavaCoreLoggerLevel(a), ToJavaCoreLoggerLevel(b)) <==> a == b
  {
  }

  /** The forward map turns the canonical order into the order of JUL values:
      a more severe canonical level gets a larger JUL value. */
  lemma ToJavaCoreLoggerLevelOrder(a: LogLevel, b: LogLevel)
    ensures AtLeastAsSevere(a, b) <==> ToJavaCoreLoggerLevel(a).value >= ToJavaCoreLoggerLevel(b).value
  {
  }

  /** The reverse map sends a level to `level` exactly when its value lies in
      `Preimage(level)`: FINE and FINER both give DEBUG, FINEST and ALL both
      give TRACE, and SEVERE, WARNING and INFO map one-to-one. */
  lemma FromJavaCoreLoggerLevelPreimage(l: Jul.Level, level: LogLevel)
    ensures FromJavaCoreLoggerLevel(Some(l)) == Success(level) <==> l.value in Preimage(level)
  {
  }

  /** Two distinct JUL levels collapse onto DEBUG and two onto TRACE. */
  lemma ManyToOne()
    ensures FromJavaCoreLoggerLevel(Some(Jul.FINE)) == FromJavaCoreLoggerLevel(Some(Jul.FINER)) == Success(DEBUG)
    ensures FromJavaCoreLoggerLevel(Some(Jul.FINEST)) == FromJavaCoreLoggerLevel(Some(Jul.ALL)) == Success(TRACE)
    ensures !Jul.Equals(Jul.FINE, Jul.FINER) && !Jul.Equals(Jul.FINEST, Jul.ALL)
  {
  }

  /** CONFIG and OFF are rejected with the level's name in the message. */
  lemma RejectsConfigAndOff()
    ensures FromJavaCoreLoggerLevel(Some(Jul.CONFIG)) ==
              Failure(IllegalArgument("Specified log level 'CONFIG' not supported"))
    ensures FromJavaCoreLoggerLevel(Some(Jul.OFF)) ==
              Failure(IllegalArgument("Specified log level 'OFF' not supported"))
  {
    assert UnsupportedMessage("CONFIG") == "Specified log level 'CONFIG' not supported";
    assert UnsupportedMessage("OFF") == "Specified log level 'OFF' not supported";
  }

  /** The reverse map keeps the order of JUL values: of two accepted levels,
      the larger value never maps to a less severe canonical level. */
  lemma FromJavaCoreLoggerLevelMonotone(a: Jul.Level, b: Jul.Level)
    requires FromJavaCoreLoggerLevel(Some(a)).Success? && FromJavaCoreLoggerLevel(Some(b)).Success?
    requires a.value >= b.value
    ensures AtLeastAsSevere(FromJavaCoreLoggerLevel(Some(a)).value, FromJavaCoreLoggerLevel(Some(b)).value)
  {
  }

  /** Going from JUL to canonical and back lands on the representative the
      facade emits: the same canonical level, and a JUL value no lower than
      where it started. */
  lemma Canonicalise(l: Jul.Level)
    requires FromJavaCoreLoggerLevel(Some(l)).Success?
    ensures var rep := ToJavaCoreLoggerLevel(FromJavaCoreLoggerLevel(Some(l)).value);
            && FromJavaCoreLoggerLevel(Some(rep)) == FromJavaCoreLoggerLevel(Some(l))
            && rep.value >= l.value
  {
  }
}
