/** Log records and the formatter the capture handler is configured with.
    The formatter's text rendering is not part of this model: a `Formatter`
    is a pair of arbitrary rendering functions, and the only thing assumed of
    it is what the exception test asserts about stack traces. */
module Records {
  import opened Wrappers
  import Jul
  import Text
  import LevelMap

  /** A `Throwable`: its class name and its message. */
  datatype Throwable = Throwable(className: string, message: string)

  /** A logging argument: an ordinary object, rendered by its `toString`,
      or a throwable. */
  datatype Arg = Obj(text: string) | Exc(thrown: Throwable)

  /** A `java.util.logging.LogRecord`: level, message template, substitution
      parameters and the attached throwable, if any. */
  datatype LogRecord = LogRecord(level: Jul.Level, message: string, params: seq<Arg>, thrown: Option<Throwable>)

  /** The two renderings a handler asks of its formatter: `formatMessage`
      (the template with its parameters) and `format` (the full output line),
      the latter given the stack-trace dump flag as read at the time of the
      call. */
  datatype Formatter = Formatter(formatMessage: LogRecord -> string, format: (LogRecord, bool) -> string)

  /** What the exception test asserts of the formatter, for every record of
      the shape its calls produce (an emitted level, no substitution
      parameters) whose attached throwable has message `text` and whose
      template does not mention it: the full output contains `text` exactly
      when the dump flag is on. */
  ghost predicate HidesOrDumps(f: Formatter, text: string) {
    forall r: LogRecord, dump: bool ::
      && r.level in LevelMap.Emitted
      && r.params == []
      && r.thrown.Some? && r.thrown.value.message == text
      && !Text.Contains(r.message, text)
      ==> (Text.Contains(f.format(r, dump), text) <==> dump)
  }

  /** The first line of a throwable's stack trace, `Class: message`. */
  function TraceLine(t: Throwable): string {
    t.className + ": " + t.message
  }

  /** A formatter that prints the bare template, followed, when the flag is
      on, by the throwable's first stack-trace line `Class: message`. */
  function MinimalFormat(r: LogRecord, dump: bool): string {
    r.message + (if dump && r.thrown.Some? then "\n" + TraceLine(r.thrown.value) else "")
  }

  const Minimal: Formatter := Formatter((r: LogRecord) => r.message, MinimalFormat)

  /** The assumption on formatters can be met, for every exception text:
      statements made under it are not vacuous. */
  lemma MinimalHidesOrDumps(text: string)
    ensures HidesOrDumps(Minimal, text)
  {
    forall r: LogRecord, dump: bool |
      && r.level in LevelMap.Emitted
      && r.params == []
      && r.thrown.Some? && r.thrown.value.message == text
      && !Text.Contains(r.message, text)
      ensures Text.Contains(Minimal.format(r, dump), text) <==> dump
    {
      if dump {
        var head := r.message + "\n" + r.thrown.value.className + ": ";
        assert Minimal.format(r, dump) == head + text;
        assert Text.Contains(text, text);
        Text.ContainsInSuffix(head, text, text);
      } else {
        assert Minimal.format(r, dump) == r.message;
      }
    }
  }

  /** The exception text of `testLogException`. */
  const ExceptionText: string := "FakeExceptionInStack"

  /** A formatter that also prints a header naming the record's level:
      `LEVEL: template`, then the stack-trace line when the flag is on. */
  function HeaderFormat(r: LogRecord, dump: bool): string {
    r.level.name + ": " + MinimalFormat(r, dump)
  }

  const LevelHeader: Formatter := Formatter((r: LogRecord) => r.message, HeaderFormat)

  /** No header of an emitted level can start an occurrence of the
      exception text: only FINE, FINEST and INFO contain its capital F, and
      there it is followed by I or O, not a. */
  lemma EmittedHeadersFree(l: Jul.Level)
    requires l in LevelMap.Emitted
    ensures |ExceptionText| >= 2 && Text.NoStartIn(l.name + ": ", ExceptionText)
  {
    var h := l.name + ": ";
    assert ExceptionText[0] == 'F' && ExceptionText[1] == 'a';
    if l == Jul.FINE || l == Jul.FINEST {
      assert h[0] == 'F' && h[1] == 'I';
      assert 'F' !in h[1..];
      Text.NoStartWithoutFirstChar(h[1..], ExceptionText);
    } else if l == Jul.INFO {
      assert h == "INFO: ";
      assert h[2..][1..] == h[3..] && h[1..][1..] == h[2..];
      assert 'F' !in h[3..];
      Text.NoStartWithoutFirstChar(h[3..], ExceptionText);
      assert Text.NoStartIn(h[2..], ExceptionText);
      assert Text.NoStartIn(h[1..], ExceptionText);
    } else {
      if l == Jul.SEVERE {
        assert h == "SEVERE: " && 'F' !in "SEVERE: ";
      } else {
        assert h == "WARNING: " && 'F' !in "WARNING: ";
      }
      Text.NoStartWithoutFirstChar(h, ExceptionText);
    }
  }

  /** The level-printing formatter meets the assumption for the exception
      text of `testLogException`. */
  lemma LevelHeaderHidesOrDumps()
    ensures HidesOrDumps(LevelHeader, ExceptionText)
  {
    forall r: LogRecord, dump: bool |
      && r.level in LevelMap.Emitted
      && r.params == []
      && r.thrown.Some? && r.thrown.value.message == ExceptionText
      && !Text.Contains(r.message, ExceptionText)
      ensures Text.Contains(LevelHeader.format(r, dump), ExceptionText) <==> dump
    {
      var header := r.level.name + ": ";
      if dump {
        var head := header + r.message + "\n" + r.thrown.value.className + ": ";
        assert LevelHeader.format(r, dump) == head + ExceptionText;
        assert Text.Contains(ExceptionText, ExceptionText);
        Text.ContainsInSuffix(head, ExceptionText, ExceptionText);
      } else {
        assert LevelHeader.format(r, dump) == header + r.message;
        EmittedHeadersFree(r.level);
        Text.ContainsPastHeader(header, r.message, ExceptionText);
      }
    }
  }
}
